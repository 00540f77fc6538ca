// A query builder keeps what a run did to it: key predicates, interceptor predicates
// and added fields stay in it and in the builders below it. Running it again on the
// same data nevertheless gives the same page.
module RepeatedRuns {
  import opened Prelude
  import opened AccountColumns
  import opened QueryPlans
  import opened Graph
  import opened AccountQueries

  /** The two filter lists let the same rows through. */
  ghost predicate SameFilter<R(!new)>(f: seq<R -> bool>, g: seq<R -> bool>) {
    forall row: R :: Satisfies(row, f) <==> Satisfies(row, g)
  }

  lemma {:induction false} SameSelection<R(!new)>(table: seq<R>, f: seq<R -> bool>, g: seq<R -> bool>)
    requires SameFilter(f, g)
    ensures Select(table, f) == Select(table, g)
  {
    if table != [] {
      SameSelection(table[..|table| - 1], f, g);
    }
  }

  /** Adding the same predicates twice selects what adding them once does. */
  lemma AddedTwice<R(!new)>(f: seq<R -> bool>, extra: seq<R -> bool>, t: seq<R -> bool>)
    ensures SameFilter((f + extra + t) + extra + t, f + extra + t)
  {
    forall row: R
      ensures Satisfies(row, (f + extra + t) + extra + t) <==> Satisfies(row, f + extra + t)
    {
      SatisfiesAppend(row, (f + extra + t) + extra, t);
      SatisfiesAppend(row, f + extra + t, extra);
      SatisfiesAppend(row, f + extra, t);
      SatisfiesAppend(row, f, extra);
    }
  }

  lemma SameRowsAgain(db: Database, plan: Plan, extra: seq<AccountRow -> bool>, fields: seq<Column>)
    ensures PlanRows(db, After(db, plan, extra, fields), extra) == PlanRows(db, plan, extra)
  {
    AddedTwice(plan.filters, extra, plan.traversers);
    SameSelection(db.accounts, (plan.filters + extra + plan.traversers) + extra + plan.traversers,
                  plan.filters + extra + plan.traversers);
  }

  lemma SameProxyAgain(db: Database, q: ProxyPlan, page: seq<AccountRow>, row: AccountRow)
    requires row in page
    ensures JoinedProxy(db, AfterProxy(q, page), page, row) == JoinedProxy(db, q, page, row)
  {
    var ids := RequestedKeys(ProxyKeys(page));
    if ids != [] {
      var extra := [ProxyIDIn(ids)];
      AddedTwice(q.filters, extra, q.traversers);
      SameSelection(db.proxies, (q.filters + extra + q.traversers) + extra + q.traversers,
                    q.filters + extra + q.traversers);
    }
  }

  lemma ChildFieldsTwice(fields: seq<Column>)
    ensures ChildFields(ChildFields(fields)) == ChildFields(fields)
  {
  }

  /**
   * What a run leaves in a nested builder is narrowed to the page it was run for: on its
   * own, it selects the rows it selected then.
   */
  lemma NarrowedForGood(db: Database, plan: Plan, page: seq<AccountRow>)
    requires ProxyEdgeError(plan, page) == None && AccountEdgesError(db, plan, page) == None
    ensures plan.proxy.Some? && RequestedKeys(ProxyKeys(page)) != [] ==>
              ProxyPlanRows(db, AfterProxyEdge(plan, page).value, []) == ProxyPage(db, plan.proxy.value, page)
    ensures plan.parent.Some? && RequestedKeys(ParentIDs(page)) != [] ==>
              PlanRows(db, AfterParentEdge(db, plan, page).value, []) == ParentPage(db, plan.parent.value, page)
    ensures plan.children.Some? ==>
              PlanRows(db, AfterChildrenEdge(db, plan, page).value, []) == ChildPage(db, plan.children.value, page)
  {
    if plan.proxy.Some? {
      var q, key := plan.proxy.value, [ProxyIDIn(RequestedKeys(ProxyKeys(page)))];
      NoMoreAdded(q.filters + key, q.traversers);
      SameSelection(db.proxies, (q.filters + key + q.traversers) + [] + q.traversers, q.filters + key + q.traversers);
    }
    if plan.parent.Some? {
      NarrowedRows(db, plan.parent.value, [AccountIDIn(RequestedKeys(ParentIDs(page)))], plan.parent.value.fields);
    }
    if plan.children.Some? {
      NarrowedRows(db, plan.children.value, [ParentIDIn(AccountIDs(page))], ChildFields(plan.children.value.fields));
    }
  }

  lemma NoMoreAdded<R(!new)>(f: seq<R -> bool>, t: seq<R -> bool>)
    ensures SameFilter((f + t) + [] + t, f + t)
  {
    forall row: R
      ensures Satisfies(row, (f + t) + [] + t) <==> Satisfies(row, f + t)
    {
      assert (f + t) + [] == f + t;
      SatisfiesAppend(row, f + t, t);
      SatisfiesAppend(row, f, t);
    }
  }

  lemma NarrowedRows(db: Database, q: Plan, key: seq<AccountRow -> bool>, fields: seq<Column>)
    ensures PlanRows(db, After(db, q, key, fields), []) == PlanRows(db, q, key)
  {
    NoMoreAdded(q.filters + key, q.traversers);
    SameSelection(db.accounts, (q.filters + key + q.traversers) + [] + q.traversers, q.filters + key + q.traversers);
  }

  /**
   * Main result: for any plan, with any filters, windows and edges, and whether or not
   * the first run failed, the builder it leaves behind selects the same rows and joins
   * them to the same trees.
   */
  lemma {:induction false} SamePageAgain(db: Database, plan: Plan, extra: seq<AccountRow -> bool>,
                                         fields: seq<Column>, row: AccountRow)
    requires row in PlanRows(db, plan, extra)
    ensures var again, page := After(db, plan, extra, fields), PlanRows(db, plan, extra);
            PlanRows(db, again, extra) == page &&
            PageJoin(db, again, fields, page, row) == PageJoin(db, plan, fields, page, row)
    decreases plan, 0
  {
    var again, page := After(db, plan, extra, fields), PlanRows(db, plan, extra);
    SameRowsAgain(db, plan, extra, fields);
    if PrepareError(plan, fields).Some? {
      SameEdges(db, again, plan, fields, page, row);
    } else {
      if plan.proxy.Some? {
        SameProxyAgain(db, plan.proxy.value, page, row);
      }
      if plan.parent.Some? {
        SameParentAgain(db, plan.parent.value, page, row);
      }
      if plan.children.Some? {
        SameChildrenAgain(db, plan.children.value, page, row);
      }
      assert EdgeProxy(db, again, page, row) == EdgeProxy(db, plan, page, row);
      assert EdgeParent(db, again, page, row) == EdgeParent(db, plan, page, row);
      assert EdgeChildren(db, again, page, row) == EdgeChildren(db, plan, page, row);
    }
  }

  lemma {:induction false} SameParentAgain(db: Database, q: Plan, page: seq<AccountRow>, row: AccountRow)
    ensures JoinedParent(db, AfterParent(db, q, page), page, row) == JoinedParent(db, q, page, row)
    decreases q, 1
  {
    var ids := RequestedKeys(ParentIDs(page));
    if ids != [] {
      var extra, rows := [AccountIDIn(ids)], ParentPage(db, q, page);
      SameRowsAgain(db, q, extra, q.fields);
      var at := MatchKey(AccountIDs(rows), row.parentID);
      if at.Some? {
        SamePageAgain(db, q, extra, q.fields, rows[at.value]);
      }
    }
  }

  lemma {:induction false} SameChildrenAgain(db: Database, q: Plan, page: seq<AccountRow>, row: AccountRow)
    ensures JoinedChildren(db, AfterChildren(db, q, page), page, row) == JoinedChildren(db, q, page, row)
    decreases q, 1
  {
    var extra, rows := [ParentIDIn(AccountIDs(page))], ChildPage(db, q, page);
    var again := AfterChildren(db, q, page);
    SameRowsAgain(db, q, extra, ChildFields(q.fields));
    ChildFieldsTwice(q.fields);
    var mine := Positions(ParentIDs(rows), Some(row.id));
    forall i | 0 <= i < |mine|
      ensures PageJoin(db, again, ChildFields(again.fields), rows, rows[mine[i]])
           == PageJoin(db, q, ChildFields(q.fields), rows, rows[mine[i]])
    {
      SamePageAgain(db, q, extra, ChildFields(q.fields), rows[mine[i]]);
    }
  }

  /** So the nodes a second `All` of the same builder returns spell out the first one's page. */
  lemma SecondRunShowsFirstPage(db: Database, plan: Plan, nodes: seq<Account>, S: set<Account>)
    requires ShowsPage(db, After(db, plan, [], plan.fields), nodes, S)
    ensures ShowsPage(db, plan, nodes, S)
  {
    var rows := PlanRows(db, plan, []);
    SameRowsAgain(db, plan, [], plan.fields);
    forall i | 0 <= i < |rows| {
      SamePageAgain(db, plan, [], plan.fields, rows[i]);
    }
  }

  /** The second run also meets the same first error, if any. */
  lemma {:induction false} SameErrorAgain(db: Database, plan: Plan, extra: seq<AccountRow -> bool>, fields: seq<Column>)
    ensures RunError(db, After(db, plan, extra, fields), fields, PlanRows(db, plan, extra))
         == RunError(db, plan, fields, PlanRows(db, plan, extra))
    decreases plan, 0
  {
    var again, page := After(db, plan, extra, fields), PlanRows(db, plan, extra);
    if PrepareError(plan, fields) == None && page != [] {
      if plan.parent.Some? {
        SameParentErrorAgain(db, plan.parent.value, page);
      }
      if plan.children.Some? {
        SameChildrenErrorAgain(db, plan.children.value, page);
      }
      SameEdgeErrors(db, plan, again, page);
    }
  }

  lemma SameEdgeErrors(db: Database, plan: Plan, again: Plan, page: seq<AccountRow>)
    requires again.proxy == AfterProxyEdge(plan, page)
    requires again.parent == AfterParentEdge(db, plan, page) && again.children == AfterChildrenEdge(db, plan, page)
    requires plan.parent.Some? ==>
               ParentError(db, AfterParent(db, plan.parent.value, page), page) == ParentError(db, plan.parent.value, page)
    requires plan.children.Some? ==>
               ChildrenError(db, AfterChildren(db, plan.children.value, page), page)
               == ChildrenError(db, plan.children.value, page)
    ensures EdgesError(db, again, page) == EdgesError(db, plan, page)
  {
    assert ProxyEdgeError(again, page) == ProxyEdgeError(plan, page);
    if ProxyEdgeError(plan, page) == None {
      assert AccountEdgesError(db, again, page) == AccountEdgesError(db, plan, page);
    }
  }

  lemma {:induction false} SameParentErrorAgain(db: Database, q: Plan, page: seq<AccountRow>)
    ensures ParentError(db, AfterParent(db, q, page), page) == ParentError(db, q, page)
    decreases q, 1
  {
    var ids := RequestedKeys(ParentIDs(page));
    if ids != [] {
      SameRowsAgain(db, q, [AccountIDIn(ids)], q.fields);
      SameErrorAgain(db, q, [AccountIDIn(ids)], q.fields);
    }
  }

  lemma {:induction false} SameChildrenErrorAgain(db: Database, q: Plan, page: seq<AccountRow>)
    ensures ChildrenError(db, AfterChildren(db, q, page), page) == ChildrenError(db, q, page)
    decreases q, 1
  {
    var keys := [ParentIDIn(AccountIDs(page))];
    SameRowsAgain(db, q, keys, ChildFields(q.fields));
    SameErrorAgain(db, q, keys, ChildFields(q.fields));
    ChildFieldsTwice(q.fields);
  }
}
