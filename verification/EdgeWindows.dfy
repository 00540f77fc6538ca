// OFFSET and LIMIT on an eager-loaded edge cut the one batched query of the page, not
// the rows of each node. When that is the same as a window per node, exactly.
module EdgeWindows {
  import opened Prelude
  import opened QueryPlans
  import opened EagerLoadingLaws

  /** The window leaves every row in. */
  predicate NothingCut(n: nat, skip: nat, cap: nat) {
    skip == 0 && (cap == 0 || n <= cap)
  }

  // Many-to-one: a key asked for alone returns one row at most

  /** With a window, all keys are found together as they are alone: no row is cut, or every row is. */
  predicate LookupHarmless(n: nat, skip: nat, cap: nat) {
    NothingCut(n, skip, cap) || n <= skip
  }

  /** `id` is found in the window on all rows exactly when its own row, alone, is left in the window. */
  predicate SameLookup(ids: seq<int>, skip: nat, cap: nat, id: int) {
    id in Cut(ids, skip, cap) <==> id in ids && skip == 0
  }

  lemma LookupExact(ids: seq<int>, skip: nat, cap: nat)
    requires Distinct(ids)
    ensures LookupHarmless(|ids|, skip, cap) <==> forall i :: 0 <= i < |ids| ==> SameLookup(ids, skip, cap, ids[i])
  {
    if !LookupHarmless(|ids|, skip, cap) {
      if skip == 0 {
        assert !SameLookup(ids, skip, cap, ids[cap]);
      } else {
        assert Cut(ids, skip, cap)[0] == ids[skip];
        assert !SameLookup(ids, skip, cap, ids[skip]);
      }
    }
  }

  lemma CutIDs(rows: seq<AccountRow>, skip: nat, cap: nat)
    ensures AccountIDs(Cut(rows, skip, cap)) == Cut(AccountIDs(rows), skip, cap)
  {
  }

  lemma CutProxyIDs(rows: seq<ProxyRow>, skip: nat, cap: nat)
    ensures ProxyIDs(Cut(rows, skip, cap)) == Cut(ProxyIDs(rows), skip, cap)
  {
  }

  lemma OneKeyOneRow(ids: seq<int>, k: int)
    requires Distinct(ids) && forall i :: 0 <= i < |ids| ==> ids[i] == k
    ensures |ids| <= 1
  {
    if |ids| > 1 {
      FirstTwoDiffer(ids);
    }
  }

  lemma FirstTwoDiffer<T>(s: seq<T>)
    requires Distinct(s) && |s| > 1
    ensures s[0] != s[1]
  {
  }

  // Parents

  /** All parents the page's query selects before the window. */
  function AllParents(db: Database, q: Plan, page: seq<AccountRow>): seq<AccountRow> {
    ParentPage(db, q.(offset := None, limit := None), page)
  }

  /** `row` finds a parent in the batched answer exactly when a windowed query for `row` alone finds one. */
  ghost predicate ParentAgreesOn(db: Database, q: Plan, page: seq<AccountRow>, row: AccountRow) {
    row.parentID.Some? ==>
      (row.parentID.value in AccountIDs(ParentPage(db, q, page)) <==>
       PlanRows(db, q, [AccountIDIn([row.parentID.value])]) != [])
  }

  lemma AtMostOneParent(db: Database, q: Plan, k: int)
    requires KeysDistinct(db)
    ensures |PlanRows(db, q.(offset := None, limit := None), [AccountIDIn([k])])| <= 1
  {
    var p := q.(offset := None, limit := None);
    var rows := PlanRows(db, p, [AccountIDIn([k])]);
    PlanRowsDistinct(db, p, [AccountIDIn([k])]);
    forall i | 0 <= i < |rows|
      ensures AccountIDs(rows)[i] == k
    {
      assert rows[i] in rows;
      SatisfiesSplit(rows[i], p.filters, AccountIDIn([k]), p.traversers);
    }
    OneKeyOneRow(AccountIDs(rows), k);
  }

  lemma ParentAgreement(db: Database, q: Plan, page: seq<AccountRow>, row: AccountRow)
    requires KeysDistinct(db) && row in page && row.parentID.Some?
    ensures ParentAgreesOn(db, q, page, row) <==>
            SameLookup(AccountIDs(AllParents(db, q, page)), Skip(q.offset), Cap(q.limit), row.parentID.value)
  {
    var p, k := q.(offset := None, limit := None), row.parentID.value;
    var rows, single := AllParents(db, q, page), PlanRows(db, p, [AccountIDIn([k])]);
    CutIDs(rows, Skip(q.offset), Cap(q.limit));
    AtMostOneParent(db, q, k);
    ParentLookup(db, p, page, row);
    assert PlanRows(db, q, [AccountIDIn([k])]) == Cut(single, Skip(q.offset), Cap(q.limit));
    assert k in AccountIDs(rows) <==> single != [];
  }

  lemma AskerOf(db: Database, q: Plan, page: seq<AccountRow>, parent: AccountRow) returns (i: nat)
    requires parent in AllParents(db, q, page)
    ensures i < |page| && page[i].parentID == Some(parent.id)
  {
    var ids := RequestedKeys(ParentIDs(page));
    SatisfiesSplit(parent, q.filters, AccountIDIn(ids), q.traversers);
    assert Some(parent.id) in ParentIDs(page);
    i :| 0 <= i < |page| && ParentIDs(page)[i] == Some(parent.id);
  }

  /**
   * Main result: with OFFSET or LIMIT on the parent edge every account of the page finds
   * what its own windowed query would find exactly when the window leaves in every
   * parent of the page, or its offset leaves out every one.
   */
  lemma ParentWindowExact(db: Database, q: Plan, page: seq<AccountRow>)
    requires KeysDistinct(db)
    ensures (forall i :: 0 <= i < |page| ==> ParentAgreesOn(db, q, page, page[i])) <==>
            LookupHarmless(|AllParents(db, q, page)|, Skip(q.offset), Cap(q.limit))
  {
    var rows, skip, cap := AllParents(db, q, page), Skip(q.offset), Cap(q.limit);
    var ids := AccountIDs(rows);
    PlanRowsDistinct(db, q.(offset := None, limit := None), [AccountIDIn(RequestedKeys(ParentIDs(page)))]);
    LookupExact(ids, skip, cap);
    forall i | 0 <= i < |page| && page[i].parentID.Some?
      ensures ParentAgreesOn(db, q, page, page[i]) <==> SameLookup(ids, skip, cap, page[i].parentID.value)
    {
      ParentAgreement(db, q, page, page[i]);
    }
    if forall i :: 0 <= i < |page| ==> ParentAgreesOn(db, q, page, page[i]) {
      forall j | 0 <= j < |ids|
        ensures SameLookup(ids, skip, cap, ids[j])
      {
        assert rows[j] in rows;
        var i := AskerOf(db, q, page, rows[j]);
        assert ParentAgreesOn(db, q, page, page[i]);
      }
    }
    if LookupHarmless(|rows|, skip, cap) {
      forall i | 0 <= i < |page| && page[i].parentID.Some?
        ensures SameLookup(ids, skip, cap, page[i].parentID.value)
      {
        if page[i].parentID.value in ids {
          var j :| 0 <= j < |ids| && ids[j] == page[i].parentID.value;
          assert SameLookup(ids, skip, cap, ids[j]);
        }
      }
    }
  }

  // Proxies

  function AllProxies(db: Database, q: ProxyPlan, page: seq<AccountRow>): seq<ProxyRow> {
    ProxyPage(db, q.(offset := None, limit := None), page)
  }

  ghost predicate ProxyAgreesOn(db: Database, q: ProxyPlan, page: seq<AccountRow>, row: AccountRow) {
    row.proxyID.Some? ==>
      (row.proxyID.value in ProxyIDs(ProxyPage(db, q, page)) <==>
       ProxyPlanRows(db, q, [ProxyIDIn([row.proxyID.value])]) != [])
  }

  lemma {:induction false} SelectedProxiesDiffer(table: seq<ProxyRow>, filters: seq<ProxyRow -> bool>)
    requires Distinct(ProxyIDs(table))
    ensures Distinct(ProxyIDs(Select(table, filters)))
  {
    if table != [] {
      var init, last := table[..|table| - 1], table[|table| - 1];
      assert ProxyIDs(init) == ProxyIDs(table)[..|init|];
      SelectedProxiesDiffer(init, filters);
      var kept := Select(init, filters);
      forall i | 0 <= i < |kept|
        ensures ProxyIDs(kept)[i] != last.id
      {
        assert kept[i] in kept;
        var j :| 0 <= j < |init| && init[j] == kept[i];
        assert ProxyIDs(table)[j] != ProxyIDs(table)[|init|];
      }
      if Satisfies(last, filters) {
        assert Select(table, filters) == kept + [last];
        assert ProxyIDs(kept + [last]) == ProxyIDs(kept) + [last.id];
      } else {
        assert Select(table, filters) == kept;
      }
    }
  }

  lemma AtMostOneProxy(db: Database, q: ProxyPlan, k: int)
    requires KeysDistinct(db)
    ensures |ProxyPlanRows(db, q.(offset := None, limit := None), [ProxyIDIn([k])])| <= 1
  {
    var p := q.(offset := None, limit := None);
    var rows := ProxyPlanRows(db, p, [ProxyIDIn([k])]);
    SelectedProxiesDiffer(db.proxies, p.filters + [ProxyIDIn([k])] + p.traversers);
    forall i | 0 <= i < |rows|
      ensures ProxyIDs(rows)[i] == k
    {
      assert rows[i] in rows;
      SatisfiesSplit(rows[i], p.filters, ProxyIDIn([k]), p.traversers);
    }
    OneKeyOneRow(ProxyIDs(rows), k);
  }

  lemma ProxyAgreement(db: Database, q: ProxyPlan, page: seq<AccountRow>, row: AccountRow)
    requires KeysDistinct(db) && row in page && row.proxyID.Some?
    ensures ProxyAgreesOn(db, q, page, row) <==>
            SameLookup(ProxyIDs(AllProxies(db, q, page)), Skip(q.offset), Cap(q.limit), row.proxyID.value)
  {
    var p, k := q.(offset := None, limit := None), row.proxyID.value;
    var rows, single := AllProxies(db, q, page), ProxyPlanRows(db, p, [ProxyIDIn([k])]);
    CutProxyIDs(rows, Skip(q.offset), Cap(q.limit));
    AtMostOneProxy(db, q, k);
    ProxyLookup(db, p, page, row);
    assert ProxyPlanRows(db, q, [ProxyIDIn([k])]) == Cut(single, Skip(q.offset), Cap(q.limit));
    assert k in ProxyIDs(rows) <==> single != [];
  }

  lemma ProxyAskerOf(db: Database, q: ProxyPlan, page: seq<AccountRow>, proxy: ProxyRow) returns (i: nat)
    requires proxy in AllProxies(db, q, page)
    ensures i < |page| && page[i].proxyID == Some(proxy.id)
  {
    var ids := RequestedKeys(ProxyKeys(page));
    SatisfiesSplit(proxy, q.filters, ProxyIDIn(ids), q.traversers);
    assert Some(proxy.id) in ProxyKeys(page);
    i :| 0 <= i < |page| && ProxyKeys(page)[i] == Some(proxy.id);
  }

  /** The same for the proxy edge. */
  lemma ProxyWindowExact(db: Database, q: ProxyPlan, page: seq<AccountRow>)
    requires KeysDistinct(db)
    ensures (forall i :: 0 <= i < |page| ==> ProxyAgreesOn(db, q, page, page[i])) <==>
            LookupHarmless(|AllProxies(db, q, page)|, Skip(q.offset), Cap(q.limit))
  {
    var rows, skip, cap := AllProxies(db, q, page), Skip(q.offset), Cap(q.limit);
    var ids := ProxyIDs(rows);
    SelectedProxiesDiffer(db.proxies, q.filters + [ProxyIDIn(RequestedKeys(ProxyKeys(page)))] + q.traversers);
    LookupExact(ids, skip, cap);
    forall i | 0 <= i < |page| && page[i].proxyID.Some?
      ensures ProxyAgreesOn(db, q, page, page[i]) <==> SameLookup(ids, skip, cap, page[i].proxyID.value)
    {
      ProxyAgreement(db, q, page, page[i]);
    }
    if forall i :: 0 <= i < |page| ==> ProxyAgreesOn(db, q, page, page[i]) {
      forall j | 0 <= j < |ids|
        ensures SameLookup(ids, skip, cap, ids[j])
      {
        assert rows[j] in rows;
        var i := ProxyAskerOf(db, q, page, rows[j]);
        assert ProxyAgreesOn(db, q, page, page[i]);
      }
    }
    if LookupHarmless(|rows|, skip, cap) {
      forall i | 0 <= i < |page| && page[i].proxyID.Some?
        ensures SameLookup(ids, skip, cap, page[i].proxyID.value)
      {
        if page[i].proxyID.value in ids {
          var j :| 0 <= j < |ids| && ids[j] == page[i].proxyID.value;
          assert SameLookup(ids, skip, cap, ids[j]);
        }
      }
    }
  }

  // Children: the rows of one parent

  function BucketOf(rows: seq<AccountRow>, id: int): seq<AccountRow> {
    Pick(rows, Positions(ParentIDs(rows), Some(id)))
  }

  lemma BucketOfSnoc(rows: seq<AccountRow>, last: AccountRow, id: int)
    ensures BucketOf(rows + [last], id) == BucketOf(rows, id) + (if last.parentID == Some(id) then [last] else [])
  {
    BucketSnoc(rows, last, id);
  }

  lemma {:induction false} BucketOfAppend(a: seq<AccountRow>, b: seq<AccountRow>, id: int)
    ensures BucketOf(a + b, id) == BucketOf(a, id) + BucketOf(b, id)
    decreases |b|
  {
    if b == [] {
      assert a + b == a && BucketOf(b, id) == [];
    } else {
      var init, last := b[..|b| - 1], b[|b| - 1];
      assert b == init + [last] && a + b == (a + init) + [last];
      BucketOfAppend(a, init, id);
      BucketOfSnoc(init, last, id);
      BucketOfSnoc(a + init, last, id);
    }
  }

  ghost predicate AllOf(rows: seq<AccountRow>, id: int) {
    forall i :: 0 <= i < |rows| ==> rows[i].parentID == Some(id)
  }

  ghost predicate NoneOf(rows: seq<AccountRow>, id: int) {
    forall i :: 0 <= i < |rows| ==> rows[i].parentID != Some(id)
  }

  /** A bucket is as long as the rows only when it is all of them. */
  lemma {:induction false} BucketOfSize(rows: seq<AccountRow>, id: int)
    ensures |BucketOf(rows, id)| <= |rows|
    ensures |BucketOf(rows, id)| == |rows| <==> AllOf(rows, id)
    ensures AllOf(rows, id) ==> BucketOf(rows, id) == rows
  {
    if rows != [] {
      var init, last := rows[..|rows| - 1], rows[|rows| - 1];
      assert rows == init + [last];
      BucketOfSize(init, id);
      BucketOfSnoc(init, last, id);
      AllOfSnoc(init, last, id);
    }
  }

  lemma AllOfSnoc(rows: seq<AccountRow>, last: AccountRow, id: int)
    ensures AllOf(rows + [last], id) <==> AllOf(rows, id) && last.parentID == Some(id)
  {
    var all := rows + [last];
    assert all[|rows|] == last && forall i :: 0 <= i < |rows| ==> all[i] == rows[i];
  }

  lemma {:induction false} EmptyBucket(rows: seq<AccountRow>, id: int)
    ensures BucketOf(rows, id) == [] <==> NoneOf(rows, id)
  {
    if rows != [] {
      var init, last := rows[..|rows| - 1], rows[|rows| - 1];
      assert rows == init + [last];
      EmptyBucket(init, id);
      BucketOfSnoc(init, last, id);
      assert NoneOf(rows, id) <==> NoneOf(init, id) && last.parentID != Some(id);
    }
  }

  /** Distinct rows stay distinct in a bucket. */
  lemma BucketsDiffer(rows: seq<AccountRow>, id: int, i: nat, j: nat)
    requires Distinct(rows) && i < j < |BucketOf(rows, id)|
    ensures BucketOf(rows, id)[i] != BucketOf(rows, id)[j]
  {
    PositionsExact(ParentIDs(rows), Some(id));
  }

  /** Node `id` gets from the windowed page what a windowed query of its own would get. */
  predicate SameBucket(rows: seq<AccountRow>, skip: nat, cap: nat, id: int) {
    BucketOf(Cut(rows, skip, cap), id) == Cut(BucketOf(rows, id), skip, cap)
  }

  /** How many rows the window looks at, the skipped ones included. */
  function Seen(n: nat, skip: nat, cap: nat): (m: nat)
    ensures m <= n
  {
    if cap == 0 || n <= skip + cap then n else skip + cap
  }

  /** All rows up to the window's end are `p`'s, and no other parent has more rows than are skipped. */
  ghost predicate OneFamilyInView(rows: seq<AccountRow>, skip: nat, cap: nat, p: int) {
    AllOf(rows[..Seen(|rows|, skip, cap)], p) && forall other :: other != p ==> |BucketOf(rows, other)| <= skip
  }

  ghost predicate BucketsHarmless(rows: seq<AccountRow>, skip: nat, cap: nat) {
    NothingCut(|rows|, skip, cap) || |rows| <= skip || exists p :: OneFamilyInView(rows, skip, cap, p)
  }

  lemma HarmlessKeepsBucket(rows: seq<AccountRow>, skip: nat, cap: nat, id: int)
    requires BucketsHarmless(rows, skip, cap)
    ensures SameBucket(rows, skip, cap, id)
  {
    BucketOfSize(rows, id);
    if !NothingCut(|rows|, skip, cap) {
      if |rows| <= skip {
        assert Cut(rows, skip, cap) == [] && Cut(BucketOf(rows, id), skip, cap) == [];
        EmptyBucket([], id);
      } else {
        var p :| OneFamilyInView(rows, skip, cap, p);
        OneFamilyKeepsBucket(rows, skip, cap, p, id);
      }
    }
  }

  lemma OneFamilyKeepsBucket(rows: seq<AccountRow>, skip: nat, cap: nat, p: int, id: int)
    requires skip < |rows| && OneFamilyInView(rows, skip, cap, p)
    ensures SameBucket(rows, skip, cap, id)
  {
    var m := Seen(|rows|, skip, cap);
    var view, rest := rows[..m], rows[m..];
    var kept := Cut(rows, skip, cap);
    assert kept == view[skip..];
    assert rows == view + rest;
    BucketOfAppend(view, rest, id);
    if id == p {
      BucketOfSize(view, p);
      AllOfRest(view, skip, p);
      BucketOfSize(kept, p);
      EmptyBucket([], p);
      CutOfView(view, BucketOf(rest, p), skip, cap);
    } else {
      NotHisNotAnyones(view, p, id);
      NoneOfRest(view, skip, id);
      EmptyBucket(kept, id);
    }
  }

  lemma AllOfRest(view: seq<AccountRow>, skip: nat, p: int)
    requires skip <= |view| && AllOf(view, p)
    ensures AllOf(view[skip..], p)
  {
  }

  lemma NoneOfRest(view: seq<AccountRow>, skip: nat, p: int)
    requires skip <= |view| && NoneOf(view, p)
    ensures NoneOf(view[skip..], p)
  {
  }

  lemma CutOfView(view: seq<AccountRow>, more: seq<AccountRow>, skip: nat, cap: nat)
    requires skip <= |view| && (cap == 0 || |view| <= skip + cap)
    requires more == [] || (cap > 0 && |view| == skip + cap)
    ensures Cut(view + more, skip, cap) == view[skip..]
  {
  }

  /** The first row kept belongs to a parent that owns every row skipped. */
  lemma SkippedAreHis(rows: seq<AccountRow>, skip: nat, cap: nat, p: int)
    requires Distinct(rows) && skip < |rows| && rows[skip].parentID == Some(p)
    requires SameBucket(rows, skip, cap, p)
    ensures AllOf(rows[..skip], p)
  {
    var before, after := rows[..skip], rows[skip..];
    assert rows == before + after;
    BucketOfAppend(before, after, p);
    BucketOfSize(before, p);
    FirstOfBucket(after, p);
    var kept := Cut(rows, skip, cap);
    assert kept != [] && kept[0] == rows[skip];
    FirstOfBucket(kept, p);
    var whole, a := BucketOf(rows, p), |BucketOf(before, p)|;
    assert whole[a] == rows[skip] && whole[skip] == rows[skip];
    if a < skip {
      BucketsDiffer(rows, p, a, skip);
    }
  }

  lemma FirstOfBucket(rows: seq<AccountRow>, p: int)
    requires rows != [] && rows[0].parentID == Some(p)
    ensures BucketOf(rows, p) != [] && BucketOf(rows, p)[0] == rows[0]
  {
    assert rows == [rows[0]] + rows[1..];
    BucketOfAppend([rows[0]], rows[1..], p);
    BucketOfSize([rows[0]], p);
    assert AllOf([rows[0]], p);
  }

  lemma ViewSplits(rows: seq<AccountRow>, skip: nat, cap: nat)
    requires skip < |rows|
    ensures var m := Seen(|rows|, skip, cap);
            rows[..m] == rows[..skip] + Cut(rows, skip, cap) && rows == rows[..skip] + Cut(rows, skip, cap) + rows[m..]
  {
    var m := Seen(|rows|, skip, cap);
    assert Cut(rows, skip, cap) == rows[skip..m];
  }

  /** A parent with none of the skipped rows has none in the window either, and too few to see alone. */
  lemma OthersAreUnseen(before: seq<AccountRow>, kept: seq<AccountRow>, rest: seq<AccountRow>,
                        rows: seq<AccountRow>, cap: nat, id: int)
    requires rows == before + kept + rest && Distinct(rows) && before != [] && NoneOf(before, id)
    requires BucketOf(kept, id) == Cut(BucketOf(rows, id), |before|, cap)
    ensures NoneOf(kept, id) && |BucketOf(rows, id)| <= |before|
  {
    var mine := BucketOf(kept, id);
    BucketSkips(before, kept, rest, id);
    ShiftedCut(mine, BucketOf(rest, id), |before|, cap);
    if mine != [] {
      BucketsDiffer(rows, id, 0, |before|);
    }
    EmptyBucket(kept, id);
  }

  lemma BucketSkips(before: seq<AccountRow>, kept: seq<AccountRow>, rest: seq<AccountRow>, id: int)
    requires NoneOf(before, id)
    ensures BucketOf(before + kept + rest, id) == BucketOf(kept, id) + BucketOf(rest, id)
  {
    BucketOfAppend(before + kept, rest, id);
    BucketOfAppend(before, kept, id);
    EmptyBucket(before, id);
    assert [] + BucketOf(kept, id) == BucketOf(kept, id);
  }

  /** A list whose window starts like the list itself repeats its first element, if anything is left. */
  lemma ShiftedCut(mine: seq<AccountRow>, more: seq<AccountRow>, skip: nat, cap: nat)
    requires mine == Cut(mine + more, skip, cap)
    ensures mine != [] ==> |mine + more| > skip && (mine + more)[0] == (mine + more)[skip]
    ensures mine == [] ==> |more| <= skip
  {
    assert mine != [] ==> (mine + more)[0] == mine[0];
  }

  lemma NotHisNotAnyones(rows: seq<AccountRow>, p: int, other: int)
    requires AllOf(rows, p) && other != p
    ensures NoneOf(rows, other)
  {
  }

  /** Every row has a parent, and each of these parents gets his own window. */
  ghost predicate AllServed(rows: seq<AccountRow>, skip: nat, cap: nat) {
    forall i :: 0 <= i < |rows| ==>
      rows[i].parentID.Some? && SameBucket(rows, skip, cap, rows[i].parentID.value)
  }

  lemma OtherParent(rows: seq<AccountRow>, skip: nat, cap: nat, p: int, other: int)
    requires Distinct(rows) && 0 < skip < |rows| && AllServed(rows, skip, cap)
    requires AllOf(rows[..skip], p) && other != p
    ensures NoneOf(Cut(rows, skip, cap), other) && |BucketOf(rows, other)| <= skip
  {
    var before, kept := rows[..skip], Cut(rows, skip, cap);
    if NoneOf(rows, other) {
      EmptyBucket(rows, other);
    } else {
      var i :| 0 <= i < |rows| && rows[i].parentID == Some(other);
      NotHisNotAnyones(before, p, other);
      ViewSplits(rows, skip, cap);
      OthersAreUnseen(before, kept, rows[Seen(|rows|, skip, cap)..], rows, cap, other);
    }
  }

  lemma OnlyHis(rows: seq<AccountRow>, p: int)
    requires forall i :: 0 <= i < |rows| ==> rows[i].parentID.Some?
    requires forall other :: other != p ==> NoneOf(rows, other)
    ensures AllOf(rows, p)
  {
    forall i | 0 <= i < |rows|
      ensures rows[i].parentID == Some(p)
    {
      var q := rows[i].parentID.value;
      assert q != p ==> NoneOf(rows, q);
    }
  }

  /** With an offset inside the rows, everyone is served only if one family fills the view. */
  lemma OffsetNeedsOneFamily(rows: seq<AccountRow>, skip: nat, cap: nat)
    requires Distinct(rows) && 0 < skip < |rows| && AllServed(rows, skip, cap)
    ensures OneFamilyInView(rows, skip, cap, rows[skip].parentID.value)
  {
    var p, kept := rows[skip].parentID.value, Cut(rows, skip, cap);
    SkippedAreHis(rows, skip, cap, p);
    forall other | other != p
      ensures NoneOf(kept, other) && |BucketOf(rows, other)| <= skip
    {
      OtherParent(rows, skip, cap, p, other);
    }
    ViewSplits(rows, skip, cap);
    KeptHaveParents(rows, skip, cap);
    OnlyHis(kept, p);
    AllOfBoth(rows[..skip], kept, p);
  }

  lemma KeptHaveParents(rows: seq<AccountRow>, skip: nat, cap: nat)
    requires AllServed(rows, skip, cap)
    ensures forall i :: 0 <= i < |Cut(rows, skip, cap)| ==> Cut(rows, skip, cap)[i].parentID.Some?
  {
    forall i | 0 <= i < |Cut(rows, skip, cap)|
      ensures Cut(rows, skip, cap)[i].parentID.Some?
    {
      assert Cut(rows, skip, cap)[i] == rows[skip + i];
    }
  }

  lemma AllOfBoth(a: seq<AccountRow>, b: seq<AccountRow>, p: int)
    requires AllOf(a, p) && AllOf(b, p)
    ensures AllOf(a + b, p)
  {
  }

  /** With a limit only, the first row cut off is missed by its parent unless all kept rows are his. */
  lemma FirstCutOff(kept: seq<AccountRow>, cut: seq<AccountRow>, p: int)
    requires cut != [] && cut[0].parentID == Some(p) && kept != []
    requires BucketOf(kept, p) == Cut(BucketOf(kept + cut, p), 0, |kept|)
    ensures AllOf(kept, p)
  {
    BucketOfAppend(kept, cut, p);
    FirstOfBucket(cut, p);
    BucketOfSize(kept, p);
  }

  lemma NobodyElse(kept: seq<AccountRow>, rows: seq<AccountRow>, p: int, other: int)
    requires AllOf(kept, p) && other != p && kept != []
    requires BucketOf(kept, other) == Cut(BucketOf(rows, other), 0, |kept|)
    ensures BucketOf(rows, other) == []
  {
    NotHisNotAnyones(kept, p, other);
    EmptyBucket(kept, other);
  }

  lemma LimitNeedsOneFamily(rows: seq<AccountRow>, cap: nat)
    requires 0 < cap < |rows| && AllServed(rows, 0, cap)
    ensures OneFamilyInView(rows, 0, cap, rows[cap].parentID.value)
  {
    var p := rows[cap].parentID.value;
    LimitKeepsHis(rows, cap, p);
    forall other | other != p
      ensures |BucketOf(rows, other)| <= 0
    {
      OthersHaveNone(rows, rows[..cap], p, other);
    }
  }

  lemma LimitKeepsHis(rows: seq<AccountRow>, cap: nat, p: int)
    requires 0 < cap < |rows| && rows[cap].parentID == Some(p) && SameBucket(rows, 0, cap, p)
    ensures Cut(rows, 0, cap) == rows[..cap] && AllOf(rows[..cap], p)
  {
    var kept, cut := rows[..cap], rows[cap..];
    assert Cut(rows, 0, cap) == kept && rows == kept + cut;
    FirstCutOff(kept, cut, p);
  }

  lemma OthersHaveNone(rows: seq<AccountRow>, kept: seq<AccountRow>, p: int, other: int)
    requires AllOf(kept, p) && other != p && kept != []
    requires Cut(rows, 0, |kept|) == kept && AllServed(rows, 0, |kept|)
    ensures BucketOf(rows, other) == []
  {
    if NoneOf(rows, other) {
      EmptyBucket(rows, other);
    } else {
      var i :| 0 <= i < |rows| && rows[i].parentID == Some(other);
      NobodyElse(kept, rows, p, other);
    }
  }

  /** All parents get their own window exactly when the window is harmless. */
  lemma BucketsExact(rows: seq<AccountRow>, skip: nat, cap: nat)
    requires Distinct(rows) && forall i :: 0 <= i < |rows| ==> rows[i].parentID.Some?
    ensures BucketsHarmless(rows, skip, cap) <==> AllServed(rows, skip, cap)
  {
    if BucketsHarmless(rows, skip, cap) {
      forall i | 0 <= i < |rows|
        ensures SameBucket(rows, skip, cap, rows[i].parentID.value)
      {
        HarmlessKeepsBucket(rows, skip, cap, rows[i].parentID.value);
      }
    }
    if AllServed(rows, skip, cap) && skip < |rows| {
      if skip > 0 {
        OffsetNeedsOneFamily(rows, skip, cap);
      } else if 0 < cap < |rows| {
        LimitNeedsOneFamily(rows, cap);
      }
    }
  }

  /** All children the page's query selects before the window. */
  function AllChildren(db: Database, q: Plan, page: seq<AccountRow>): seq<AccountRow> {
    ChildPage(db, q.(offset := None, limit := None), page)
  }

  /** The children loaded for `row` are those a windowed query for `row` alone returns. */
  ghost predicate ChildrenAgreeOn(db: Database, q: Plan, page: seq<AccountRow>, row: AccountRow) {
    BucketOf(ChildPage(db, q, page), row.id) == PlanRows(db, q, [ParentIDIn([row.id])])
  }

  lemma ChildrenAgreement(db: Database, q: Plan, page: seq<AccountRow>, row: AccountRow)
    requires row in page
    ensures ChildrenAgreeOn(db, q, page, row) <==>
            SameBucket(AllChildren(db, q, page), Skip(q.offset), Cap(q.limit), row.id)
  {
    var p := q.(offset := None, limit := None);
    ChildBucket(db, p, page, row);
  }

  lemma ChildrenHaveParentsOnPage(db: Database, q: Plan, page: seq<AccountRow>, j: nat) returns (i: nat)
    requires j < |AllChildren(db, q, page)|
    ensures i < |page| && AllChildren(db, q, page)[j].parentID == Some(page[i].id)
  {
    var rows := AllChildren(db, q, page);
    assert rows[j] in rows;
    SatisfiesSplit(rows[j], q.filters, ParentIDIn(AccountIDs(page)), q.traversers);
    i :| 0 <= i < |page| && AccountIDs(page)[i] == rows[j].parentID.value;
  }

  /**
   * Main result: with OFFSET or LIMIT on the children edge, every account of the page
   * gets the children its own windowed query would give exactly when the window cuts
   * nothing, or its offset leaves out every child of the page, or every child up to its
   * end has one parent and no other parent has more children than the offset skips.
   */
  lemma ChildWindowExact(db: Database, q: Plan, page: seq<AccountRow>)
    requires KeysDistinct(db)
    ensures (forall i :: 0 <= i < |page| ==> ChildrenAgreeOn(db, q, page, page[i])) <==>
            BucketsHarmless(AllChildren(db, q, page), Skip(q.offset), Cap(q.limit))
  {
    var rows, skip, cap := AllChildren(db, q, page), Skip(q.offset), Cap(q.limit);
    PlanRowsDistinct(db, q.(offset := None, limit := None), [ParentIDIn(AccountIDs(page))]);
    RowsDiffer(rows);
    forall i | 0 <= i < |page|
      ensures ChildrenAgreeOn(db, q, page, page[i]) <==> SameBucket(rows, skip, cap, page[i].id)
    {
      ChildrenAgreement(db, q, page, page[i]);
    }
    forall j | 0 <= j < |rows|
      ensures rows[j].parentID.Some? && exists i :: 0 <= i < |page| && page[i].id == rows[j].parentID.value
    {
      var i := ChildrenHaveParentsOnPage(db, q, page, j);
    }
    BucketsExact(rows, skip, cap);
    if BucketsHarmless(rows, skip, cap) {
      forall i | 0 <= i < |page|
        ensures SameBucket(rows, skip, cap, page[i].id)
      {
        HarmlessKeepsBucket(rows, skip, cap, page[i].id);
      }
    }
  }

  lemma RowsDiffer(rows: seq<AccountRow>)
    requires Distinct(AccountIDs(rows))
    ensures Distinct(rows)
  {
    forall i, j | 0 <= i < j < |rows|
      ensures rows[i] != rows[j]
    {
      assert AccountIDs(rows)[i] != AccountIDs(rows)[j];
    }
  }
}
