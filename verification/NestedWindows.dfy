// OFFSET and LIMIT anywhere in a plan: the batched load of a page against the nested
// loop whose per-row queries carry the same windows. When the two agree, exactly.
module NestedWindows {
  import opened Prelude
  import opened AccountColumns
  import opened QueryPlans
  import opened Graph
  import opened AccountQueries
  import opened EagerLoadingLaws
  import opened EdgeWindows

  /** The tree the loaders build for `row` is the one the nested loop builds. */
  ghost predicate Agrees(db: Database, plan: Plan, fields: seq<Column>, page: seq<AccountRow>, row: AccountRow) {
    PageJoin(db, plan, fields, page, row) == NestedLoop(db, plan, fields, row)
  }

  ghost predicate AllAgree(db: Database, plan: Plan, fields: seq<Column>, page: seq<AccountRow>) {
    forall i :: 0 <= i < |page| ==> Agrees(db, plan, fields, page, page[i])
  }

  predicate ProxiesHarmless(db: Database, q: ProxyPlan, page: seq<AccountRow>) {
    LookupHarmless(|AllProxies(db, q, page)|, Skip(q.offset), Cap(q.limit))
  }

  predicate ParentsHarmless(db: Database, q: Plan, page: seq<AccountRow>) {
    LookupHarmless(|AllParents(db, q, page)|, Skip(q.offset), Cap(q.limit))
  }

  ghost predicate ChildrenHarmless(db: Database, q: Plan, page: seq<AccountRow>) {
    BucketsHarmless(AllChildren(db, q, page), Skip(q.offset), Cap(q.limit))
  }

  /** Every window met along the plan is harmless on the page it is applied to. */
  ghost predicate Harmless(db: Database, plan: Plan, page: seq<AccountRow>)
    decreases plan
  {
    (plan.proxy.Some? ==> ProxiesHarmless(db, plan.proxy.value, page)) &&
    (plan.parent.Some? ==>
       ParentsHarmless(db, plan.parent.value, page) &&
       Harmless(db, plan.parent.value, ParentPage(db, plan.parent.value, page))) &&
    (plan.children.Some? ==>
       ChildrenHarmless(db, plan.children.value, page) &&
       Harmless(db, plan.children.value, ChildPage(db, plan.children.value, page)))
  }

  // ---------------------------------------------------------------- one edge

  lemma ProxyAgrees(db: Database, q: ProxyPlan, page: seq<AccountRow>, row: AccountRow)
    requires KeysDistinct(db)
    ensures JoinedProxy(db, q, page, row) == LoopProxy(db, q, row) <==> ProxyAgreesOn(db, q, page, row)
  {
    if row.proxyID.Some? {
      var k := row.proxyID.value;
      var rows, single := ProxyPage(db, q, page), ProxyPlanRows(db, q, [ProxyIDIn([k])]);
      var at := MatchKey(ProxyIDs(rows), Some(k));
      if at.Some? && single != [] {
        assert rows[at.value] in rows && single[0] in single;
        SatisfiesSplit(single[0], q.filters, ProxyIDIn([k]), q.traversers);
        SameKeySameProxy(db.proxies, rows[at.value], single[0]);
      }
    }
  }

  lemma ProxyLevel(db: Database, q: ProxyPlan, page: seq<AccountRow>)
    requires KeysDistinct(db)
    ensures (forall i :: 0 <= i < |page| ==> JoinedProxy(db, q, page, page[i]) == LoopProxy(db, q, page[i])) <==>
            ProxiesHarmless(db, q, page)
  {
    ProxyWindowExact(db, q, page);
    forall i | 0 <= i < |page|
      ensures JoinedProxy(db, q, page, page[i]) == LoopProxy(db, q, page[i]) <==> ProxyAgreesOn(db, q, page, page[i])
    {
      ProxyAgrees(db, q, page, page[i]);
    }
  }

  lemma ParentAgrees(db: Database, q: Plan, page: seq<AccountRow>, row: AccountRow)
    requires KeysDistinct(db)
    ensures var rows := ParentPage(db, q, page);
            var at := MatchKey(AccountIDs(rows), row.parentID);
            JoinedParent(db, q, page, row) == LoopParent(db, q, row) <==>
            ParentAgreesOn(db, q, page, row) && (at.Some? ==> Agrees(db, q, q.fields, rows, rows[at.value]))
  {
    if row.parentID.Some? {
      var k := row.parentID.value;
      var rows, single := ParentPage(db, q, page), PlanRows(db, q, [AccountIDIn([k])]);
      var at := MatchKey(AccountIDs(rows), Some(k));
      if at.Some? && single != [] {
        assert rows[at.value] in rows && single[0] in single;
        SatisfiesSplit(single[0], q.filters, AccountIDIn([k]), q.traversers);
        SameKeySameRow(db.accounts, rows[at.value], single[0]);
      }
    }
  }

  ghost predicate ParentsAgree(db: Database, q: Plan, page: seq<AccountRow>) {
    forall i :: 0 <= i < |page| ==> JoinedParent(db, q, page, page[i]) == LoopParent(db, q, page[i])
  }

  /** Every parent loaded is the one some row of the page finds. */
  lemma FoundBy(db: Database, q: Plan, page: seq<AccountRow>, parent: AccountRow) returns (i: nat)
    requires KeysDistinct(db) && parent in ParentPage(db, q, page)
    ensures i < |page|
    ensures var rows := ParentPage(db, q, page);
            var at := MatchKey(AccountIDs(rows), page[i].parentID); at.Some? && rows[at.value] == parent
  {
    var rows := ParentPage(db, q, page);
    i := AskerOf(db, q, page, parent);
    var j :| 0 <= j < |rows| && rows[j] == parent;
    assert AccountIDs(rows)[j] == parent.id;
    var at := MatchKey(AccountIDs(rows), page[i].parentID);
    assert rows[at.value] in rows;
    SameKeySameRow(db.accounts, rows[at.value], parent);
  }

  lemma ParentLevel(db: Database, q: Plan, page: seq<AccountRow>)
    requires KeysDistinct(db)
    ensures ParentsAgree(db, q, page) <==>
            ParentsHarmless(db, q, page) && AllAgree(db, q, q.fields, ParentPage(db, q, page))
  {
    var rows := ParentPage(db, q, page);
    ParentWindowExact(db, q, page);
    forall i | 0 <= i < |page|
      ensures var at := MatchKey(AccountIDs(rows), page[i].parentID);
              JoinedParent(db, q, page, page[i]) == LoopParent(db, q, page[i]) <==>
              ParentAgreesOn(db, q, page, page[i]) && (at.Some? ==> Agrees(db, q, q.fields, rows, rows[at.value]))
    {
      ParentAgrees(db, q, page, page[i]);
    }
    if ParentsAgree(db, q, page) {
      forall j | 0 <= j < |rows|
        ensures Agrees(db, q, q.fields, rows, rows[j])
      {
        var i := FoundBy(db, q, page, rows[j]);
      }
    }
  }

  /** A tree carries the ID of its row, whatever was selected. */
  lemma TreeIDs(db: Database, q: Plan, fields: seq<Column>, page: seq<AccountRow>, row: AccountRow)
    ensures PageJoin(db, q, fields, page, row).scan.id == row.id
    ensures NestedLoop(db, q, fields, row).scan.id == row.id
  {
    KeysAreScanned(fields, q.proxy.Some?, q.parent.Some?);
  }

  lemma SameTreesSameRows(db: Database, q: Plan, fields: seq<Column>, page: seq<AccountRow>,
                          mine: seq<AccountRow>, single: seq<AccountRow>)
    requires KeysDistinct(db) && |mine| == |single|
    requires forall x :: x in mine || x in single ==> x in db.accounts
    requires forall i :: 0 <= i < |mine| ==>
               PageJoin(db, q, fields, page, mine[i]) == NestedLoop(db, q, fields, single[i])
    ensures mine == single
  {
    forall i | 0 <= i < |mine|
      ensures mine[i] == single[i]
    {
      TreeIDs(db, q, fields, page, mine[i]);
      TreeIDs(db, q, fields, page, single[i]);
      SameKeySameRow(db.accounts, mine[i], single[i]);
    }
  }

  lemma ChildrenAgreeExact(db: Database, q: Plan, page: seq<AccountRow>, row: AccountRow)
    requires KeysDistinct(db)
    ensures var rows := ChildPage(db, q, page);
            JoinedChildren(db, q, page, row) == LoopChildren(db, q, row) <==>
            ChildrenAgreeOn(db, q, page, row) && AllAgreeIn(db, q, rows, BucketOf(rows, row.id))
  {
    var rows := ChildPage(db, q, page);
    var mine, single := BucketOf(rows, row.id), PlanRows(db, q, [ParentIDIn([row.id])]);
    var joined, looped := JoinedChildren(db, q, page, row), LoopChildren(db, q, row);
    assert forall i :: 0 <= i < |mine| ==> mine[i] in rows;
    assert forall i :: 0 <= i < |mine| ==> joined[i] == PageJoin(db, q, ChildFields(q.fields), rows, mine[i]);
    if joined == looped {
      SameTreesSameRows(db, q, ChildFields(q.fields), rows, mine, single);
    }
  }

  ghost predicate AllAgreeIn(db: Database, q: Plan, rows: seq<AccountRow>, bucket: seq<AccountRow>) {
    forall i :: 0 <= i < |bucket| ==> Agrees(db, q, ChildFields(q.fields), rows, bucket[i])
  }

  ghost predicate ChildrenAllAgree(db: Database, q: Plan, page: seq<AccountRow>) {
    forall i :: 0 <= i < |page| ==> JoinedChildren(db, q, page, page[i]) == LoopChildren(db, q, page[i])
  }

  /** Every child loaded is in the bucket of some row of the page. */
  lemma InSomeBucket(db: Database, q: Plan, page: seq<AccountRow>, j: nat) returns (i: nat, k: nat)
    requires j < |ChildPage(db, q, page)|
    ensures i < |page|
    ensures var rows := ChildPage(db, q, page); k < |BucketOf(rows, page[i].id)| && BucketOf(rows, page[i].id)[k] == rows[j]
  {
    var rows := ChildPage(db, q, page);
    assert rows[j] in rows;
    SatisfiesSplit(rows[j], q.filters, ParentIDIn(AccountIDs(page)), q.traversers);
    i :| 0 <= i < |page| && AccountIDs(page)[i] == rows[j].parentID.value;
    assert ParentIDs(rows)[j] == Some(page[i].id);
    PositionsExact(ParentIDs(rows), Some(page[i].id));
    k :| 0 <= k < |Positions(ParentIDs(rows), Some(page[i].id))| && Positions(ParentIDs(rows), Some(page[i].id))[k] == j;
  }

  lemma ChildLevel(db: Database, q: Plan, page: seq<AccountRow>)
    requires KeysDistinct(db)
    ensures ChildrenAllAgree(db, q, page) <==>
            ChildrenHarmless(db, q, page) && AllAgree(db, q, ChildFields(q.fields), ChildPage(db, q, page))
  {
    var rows := ChildPage(db, q, page);
    ChildWindowExact(db, q, page);
    forall i | 0 <= i < |page|
      ensures JoinedChildren(db, q, page, page[i]) == LoopChildren(db, q, page[i]) <==>
              ChildrenAgreeOn(db, q, page, page[i]) && AllAgreeIn(db, q, rows, BucketOf(rows, page[i].id))
    {
      ChildrenAgreeExact(db, q, page, page[i]);
    }
    if ChildrenAllAgree(db, q, page) {
      forall j | 0 <= j < |rows|
        ensures Agrees(db, q, ChildFields(q.fields), rows, rows[j])
      {
        var i, k := InSomeBucket(db, q, page, j);
        assert AllAgreeIn(db, q, rows, BucketOf(rows, page[i].id));
      }
    }
    if AllAgree(db, q, ChildFields(q.fields), rows) {
      forall i | 0 <= i < |page|
        ensures AllAgreeIn(db, q, rows, BucketOf(rows, page[i].id))
      {
        BucketAgrees(db, q, rows, page[i].id);
      }
    }
  }

  lemma BucketAgrees(db: Database, q: Plan, rows: seq<AccountRow>, id: int)
    requires AllAgree(db, q, ChildFields(q.fields), rows)
    ensures AllAgreeIn(db, q, rows, BucketOf(rows, id))
  {
    var at := Positions(ParentIDs(rows), Some(id));
    forall i | 0 <= i < |at|
      ensures Agrees(db, q, ChildFields(q.fields), rows, BucketOf(rows, id)[i])
    {
      assert BucketOf(rows, id)[i] == rows[at[i]];
    }
  }

  // --------------------------------------------------------------- all edges

  lemma TreeAgrees(db: Database, plan: Plan, fields: seq<Column>, page: seq<AccountRow>, row: AccountRow)
    ensures Agrees(db, plan, fields, page, row) <==>
            (plan.proxy.Some? ==> JoinedProxy(db, plan.proxy.value, page, row) == LoopProxy(db, plan.proxy.value, row)) &&
            (plan.parent.Some? ==>
               JoinedParent(db, plan.parent.value, page, row) == LoopParent(db, plan.parent.value, row)) &&
            (plan.children.Some? ==>
               JoinedChildren(db, plan.children.value, page, row) == LoopChildren(db, plan.children.value, row))
  {
    var s, t := PageJoin(db, plan, fields, page, row), NestedLoop(db, plan, fields, row);
    assert s.scan == t.scan && s.loaded == t.loaded;
    assert s == t <==> s.proxy == t.proxy && s.parent == t.parent && s.children == t.children;
    assert s.proxy == EdgeProxy(db, plan, page, row);
    assert s.parent == EdgeParent(db, plan, page, row);
    assert s.children == EdgeChildren(db, plan, page, row);
  }

  lemma PageAgrees(db: Database, plan: Plan, fields: seq<Column>, page: seq<AccountRow>)
    requires KeysDistinct(db)
    ensures AllAgree(db, plan, fields, page) <==>
            (plan.proxy.Some? ==> ProxiesHarmless(db, plan.proxy.value, page)) &&
            (plan.parent.Some? ==> ParentsAgree(db, plan.parent.value, page)) &&
            (plan.children.Some? ==> ChildrenAllAgree(db, plan.children.value, page))
  {
    if plan.proxy.Some? {
      ProxyLevel(db, plan.proxy.value, page);
    }
    forall i | 0 <= i < |page| {
      TreeAgrees(db, plan, fields, page, page[i]);
    }
  }

  /**
   * Main result: with distinct primary keys, the loaders build for every row of the page
   * the tree of the nested loop, windows included, if and only if every window met along
   * the plan is harmless on its page, at every depth.
   */
  lemma {:induction false} WindowsExact(db: Database, plan: Plan, fields: seq<Column>, page: seq<AccountRow>)
    requires KeysDistinct(db)
    ensures AllAgree(db, plan, fields, page) <==> Harmless(db, plan, page)
    decreases plan
  {
    PageAgrees(db, plan, fields, page);
    if plan.parent.Some? {
      var q := plan.parent.value;
      ParentLevel(db, q, page);
      WindowsExact(db, q, q.fields, ParentPage(db, q, page));
    }
    if plan.children.Some? {
      var q := plan.children.value;
      ChildLevel(db, q, page);
      WindowsExact(db, q, ChildFields(q.fields), ChildPage(db, q, page));
    }
  }

  /** So the nodes of a successful `All` show the nested loop, each its own row's, just when no window did harm. */
  lemma WindowedGraphIsNestedLoop(db: Database, plan: Plan, nodes: seq<Account>, S: set<Account>, i: nat)
    requires KeysDistinct(db) && ShowsPage(db, plan, nodes, S) && i < |nodes|
    requires Harmless(db, plan, PlanRows(db, plan, []))
    ensures Shows(nodes[i], NestedLoop(db, plan, plan.fields, PlanRows(db, plan, [])[i]), S)
  {
    WindowsExact(db, plan, plan.fields, PlanRows(db, plan, []));
    assert Agrees(db, plan, plan.fields, PlanRows(db, plan, []), PlanRows(db, plan, [])[i]);
  }

  /** Without windows there is nothing to do harm. */
  lemma {:induction false} UnwindowedIsHarmless(db: Database, plan: Plan, page: seq<AccountRow>)
    requires Unwindowed(plan)
    ensures Harmless(db, plan, page)
    decreases plan
  {
    if plan.parent.Some? {
      UnwindowedIsHarmless(db, plan.parent.value, ParentPage(db, plan.parent.value, page));
    }
    if plan.children.Some? {
      UnwindowedIsHarmless(db, plan.children.value, ChildPage(db, plan.children.value, page));
    }
  }
}
