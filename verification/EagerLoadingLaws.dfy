// What the page loaders of backend/ent/account_query.go guarantee about a whole
// load: the batched, hash-indexed join is the nested-loop join, field selection
// never costs an edge, parent and children loads are inverse, nothing is lost.
module EagerLoadingLaws {
  import opened Prelude
  import opened AccountColumns
  import opened QueryPlans
  import opened Graph
  import opened EagerLoading
  import opened AccountQueries

  // ----------------------------------------- the batched join is the nested loop

  lemma SatisfiesSplit<R>(row: R, filters: seq<R -> bool>, extra: R -> bool, traversers: seq<R -> bool>)
    ensures Satisfies(row, filters + [extra] + traversers)
       <==> Satisfies(row, filters) && extra(row) && Satisfies(row, traversers)
  {
    var all := filters + [extra] + traversers;
    if Satisfies(row, all) {
      forall i | 0 <= i < |filters|
        ensures filters[i](row)
      {
        assert all[i] == filters[i];
      }
      assert all[|filters|] == extra;
      forall i | 0 <= i < |traversers|
        ensures traversers[i](row)
      {
        assert all[|filters| + 1 + i] == traversers[i];
      }
    }
  }

  lemma SameKeySameRow(table: seq<AccountRow>, x: AccountRow, y: AccountRow)
    requires Distinct(AccountIDs(table)) && x in table && y in table && x.id == y.id
    ensures x == y
  {
    var i :| 0 <= i < |table| && table[i] == x;
    var j :| 0 <= j < |table| && table[j] == y;
    assert AccountIDs(table)[i] == AccountIDs(table)[j];
  }

  lemma SameKeySameProxy(table: seq<ProxyRow>, x: ProxyRow, y: ProxyRow)
    requires Distinct(ProxyIDs(table)) && x in table && y in table && x.id == y.id
    ensures x == y
  {
    var i :| 0 <= i < |table| && table[i] == x;
    var j :| 0 <= j < |table| && table[j] == y;
    assert ProxyIDs(table)[i] == ProxyIDs(table)[j];
  }

  /** Batched proxy lookup finds what a query for this one key finds. */
  lemma ProxyLookup(db: Database, q: ProxyPlan, page: seq<AccountRow>, row: AccountRow)
    requires KeysDistinct(db) && row in page && q.offset == None && q.limit == None && row.proxyID.Some?
    ensures JoinedProxy(db, q, page, row) == LoopProxy(db, q, row)
  {
    var k := row.proxyID.value;
    var ids := RequestedKeys(ProxyKeys(page));
    var rows, single := ProxyPage(db, q, page), ProxyPlanRows(db, q, [ProxyIDIn([k])]);
    assert k in ids by {
      var i :| 0 <= i < |page| && page[i] == row;
      assert ProxyKeys(page)[i] == Some(k);
    }
    forall x: ProxyRow
      ensures x in single <==> x in rows && x.id == k
    {
      SatisfiesSplit(x, q.filters, ProxyIDIn(ids), q.traversers);
      SatisfiesSplit(x, q.filters, ProxyIDIn([k]), q.traversers);
    }
    var at := MatchKey(ProxyIDs(rows), Some(k));
    if at.Some? {
      assert rows[at.value] in rows;
      SameKeySameProxy(db.proxies, rows[at.value], single[0]);
    } else {
      forall j | 0 <= j < |rows|
        ensures rows[j].id != k
      {
        assert ProxyIDs(rows)[j] == rows[j].id;
      }
    }
  }

  /** Batched parent lookup finds the position of what a query for this one key finds. */
  lemma ParentLookup(db: Database, q: Plan, page: seq<AccountRow>, row: AccountRow)
    requires KeysDistinct(db) && row in page && q.offset == None && q.limit == None && row.parentID.Some?
    ensures var rows := ParentPage(db, q, page);
            var single := PlanRows(db, q, [AccountIDIn([row.parentID.value])]);
            var at := MatchKey(AccountIDs(rows), row.parentID);
            (at.None? <==> single == []) && (at.Some? ==> rows[at.value] == single[0])
  {
    var k := row.parentID.value;
    var ids := RequestedKeys(ParentIDs(page));
    var rows, single := ParentPage(db, q, page), PlanRows(db, q, [AccountIDIn([k])]);
    assert k in ids by {
      var i :| 0 <= i < |page| && page[i] == row;
      assert ParentIDs(page)[i] == Some(k);
    }
    forall x: AccountRow
      ensures x in single <==> x in rows && x.id == k
    {
      SatisfiesSplit(x, q.filters, AccountIDIn(ids), q.traversers);
      SatisfiesSplit(x, q.filters, AccountIDIn([k]), q.traversers);
    }
    assert |single| > 0 ==> single[0] in single;
    var at := MatchKey(AccountIDs(rows), Some(k));
    if at.Some? {
      assert rows[at.value] in rows;
      SameKeySameRow(db.accounts, rows[at.value], single[0]);
    } else {
      forall j | 0 <= j < |rows|
        ensures rows[j].id != k
      {
        assert AccountIDs(rows)[j] == rows[j].id;
      }
    }
  }

  /** The rows of `narrow` are the rows of `wide` whose parent is `id`. */
  ghost predicate NarrowsTo(wide: seq<AccountRow -> bool>, narrow: seq<AccountRow -> bool>, id: int) {
    forall row: AccountRow :: Satisfies(row, narrow) <==> Satisfies(row, wide) && row.parentID == Some(id)
  }

  /** The bucket of one parent in the batched answer is the answer for that parent alone. */
  lemma {:induction false} Bucket(table: seq<AccountRow>, wide: seq<AccountRow -> bool>,
                                  narrow: seq<AccountRow -> bool>, id: int)
    requires NarrowsTo(wide, narrow, id)
    ensures var rows := Select(table, wide);
            Pick(rows, Positions(ParentIDs(rows), Some(id))) == Select(table, narrow)
  {
    if table != [] {
      var init, last := table[..|table| - 1], table[|table| - 1];
      Bucket(init, wide, narrow, id);
      if Satisfies(last, wide) {
        BucketSnoc(Select(init, wide), last, id);
        assert Select(table, wide) == Select(init, wide) + [last];
      } else {
        assert !Satisfies(last, narrow);
        assert Select(table, wide) == Select(init, wide) && Select(table, narrow) == Select(init, narrow);
      }
    }
  }

  lemma BucketSnoc(rows: seq<AccountRow>, last: AccountRow, id: int)
    ensures Pick(rows + [last], Positions(ParentIDs(rows + [last]), Some(id)))
         == Pick(rows, Positions(ParentIDs(rows), Some(id))) + (if last.parentID == Some(id) then [last] else [])
  {
    assert ParentIDs(rows + [last]) == ParentIDs(rows) + [last.parentID];
    PositionsSnoc(ParentIDs(rows), last.parentID, Some(id));
    PickPrefix(rows, last, Positions(ParentIDs(rows), Some(id)));
  }

  lemma PickPrefix<T>(s: seq<T>, y: T, at: seq<nat>)
    requires forall k :: 0 <= k < |at| ==> at[k] < |s|
    ensures Pick(s + [y], at) == Pick(s, at)
    ensures Pick(s + [y], at + [|s|]) == Pick(s, at) + [y]
  {
  }

  lemma ChildBucket(db: Database, q: Plan, page: seq<AccountRow>, row: AccountRow)
    requires row in page && q.offset == None && q.limit == None
    ensures var rows := ChildPage(db, q, page);
            Pick(rows, Positions(ParentIDs(rows), Some(row.id))) == PlanRows(db, q, [ParentIDIn([row.id])])
  {
    var ids := AccountIDs(page);
    assert row.id in ids by {
      var i :| 0 <= i < |page| && page[i] == row;
      assert ids[i] == row.id;
    }
    var wide := q.filters + [ParentIDIn(ids)] + q.traversers;
    var narrow := q.filters + [ParentIDIn([row.id])] + q.traversers;
    forall x: AccountRow
      ensures Satisfies(x, narrow) <==> Satisfies(x, wide) && x.parentID == Some(row.id)
    {
      SatisfiesSplit(x, q.filters, ParentIDIn(ids), q.traversers);
      SatisfiesSplit(x, q.filters, ParentIDIn([row.id]), q.traversers);
    }
    Bucket(db.accounts, wide, narrow, row.id);
  }

  /**
   * Main result: with primary keys distinct and no OFFSET or LIMIT below the root,
   * the tree the loaders build for each row of a page is the tree the naive nested
   * loop builds for that row, whatever the parent links look like.
   */
  lemma {:induction false} PageJoinIsNestedLoop(db: Database, plan: Plan, fields: seq<Column>,
                                                page: seq<AccountRow>, row: AccountRow)
    requires KeysDistinct(db) && Unwindowed(plan) && row in page
    ensures PageJoin(db, plan, fields, page, row) == NestedLoop(db, plan, fields, row)
    decreases plan, 2
  {
    if plan.proxy.Some? && row.proxyID.Some? {
      ProxyLookup(db, plan.proxy.value, page, row);
    }
    if plan.parent.Some? {
      ParentAgrees(db, plan.parent.value, page, row);
    }
    if plan.children.Some? {
      ChildrenAgree(db, plan.children.value, page, row);
    }
  }

  lemma {:induction false} ParentAgrees(db: Database, q: Plan, page: seq<AccountRow>, row: AccountRow)
    requires KeysDistinct(db) && row in page && q.offset == None && q.limit == None && Unwindowed(q)
    ensures JoinedParent(db, q, page, row) == LoopParent(db, q, row)
    decreases q, 3
  {
    if row.parentID.Some? {
      ParentLookup(db, q, page, row);
      var rows := ParentPage(db, q, page);
      var at := MatchKey(AccountIDs(rows), row.parentID);
      if at.Some? {
        PageJoinIsNestedLoop(db, q, q.fields, rows, rows[at.value]);
      }
    }
  }

  lemma {:induction false} ChildrenAgree(db: Database, q: Plan, page: seq<AccountRow>, row: AccountRow)
    requires KeysDistinct(db) && row in page && q.offset == None && q.limit == None && Unwindowed(q)
    ensures JoinedChildren(db, q, page, row) == LoopChildren(db, q, row)
    decreases q, 3
  {
    var rows := ChildPage(db, q, page);
    var mine := Positions(ParentIDs(rows), Some(row.id));
    ChildBucket(db, q, page, row);
    forall j | 0 <= j < |mine|
      ensures PageJoin(db, q, ChildFields(q.fields), rows, rows[mine[j]])
           == NestedLoop(db, q, ChildFields(q.fields), rows[mine[j]])
    {
      PageJoinIsNestedLoop(db, q, ChildFields(q.fields), rows, rows[mine[j]]);
    }
  }

  /** So the heap a successful `All` returns spells out the nested loop, node by node. */
  lemma LoadedGraphIsNestedLoop(db: Database, plan: Plan, nodes: seq<Account>, S: set<Account>, i: nat)
    requires KeysDistinct(db) && Unwindowed(plan)
    requires ShowsPage(db, plan, nodes, S) && i < |nodes|
    ensures Shows(nodes[i], NestedLoop(db, plan, plan.fields, PlanRows(db, plan, [])[i]), S)
  {
    var rows := PlanRows(db, plan, []);
    PageJoinIsNestedLoop(db, plan, plan.fields, rows, rows[i]);
  }

  const EVERYTHING: Plan := QueryPlan([], [], None, [], None, None, None, None, None)

  // Two parents, 1 and 2, with one child each.
  function TwoFamilies(): seq<AccountRow> {
    [AccountRow(1, None, None, map[]), AccountRow(2, None, None, map[]),
     AccountRow(3, None, Some(1), map[]), AccountRow(4, None, Some(2), map[])]
  }

  /**
   * A LIMIT on an edge is a limit on the whole page, not per row: loading both parents
   * with a limit of one, the second parent loses its child.
   */
  lemma LimitIsPerPage()
    ensures var rows := TwoFamilies();
            var db, q := Database(rows, []), EVERYTHING.(limit := Some(1));
            Distinct(AccountIDs(rows)) && q.limit != None &&
            JoinedChildren(db, q, rows[..2], rows[1]) == [] && |LoopChildren(db, q, rows[1])| == 1
  {
    var rows := TwoFamilies();
    var db, q := Database(rows, []), EVERYTHING.(limit := Some(1));
    assert AccountIDs(rows) == [1, 2, 3, 4];
    FirstChildOnly(db, q, rows);
    SecondChildAlone(db, q, rows);
  }

  lemma SecondChildAlone(db: Database, q: Plan, rows: seq<AccountRow>)
    requires rows == TwoFamilies() && db.accounts == rows && q == EVERYTHING.(limit := Some(1))
    ensures |LoopChildren(db, q, rows[1])| == 1
  {
  }

  lemma FirstChildOnly(db: Database, q: Plan, rows: seq<AccountRow>)
    requires rows == TwoFamilies() && db.accounts == rows && q == EVERYTHING.(limit := Some(1))
    ensures JoinedChildren(db, q, rows[..2], rows[1]) == []
  {
    assert ChildPage(db, q, rows[..2]) == [rows[2]] by {
      assert AccountIDs(rows[..2]) == [1, 2];
      SelectedBy(rows[0], rows[1], rows[2], rows[3], ParentIDIn([1, 2]));
    }
    assert ParentIDs([rows[2]]) == [Some(1)];
    NoPositions([Some(1)], Some(2));
  }

  lemma SelectedBy(a: AccountRow, b: AccountRow, c: AccountRow, d: AccountRow, f: AccountRow -> bool)
    ensures Select([a, b, c, d], [] + [f] + [])
         == (if f(a) then [a] else []) + (if f(b) then [b] else [])
          + (if f(c) then [c] else []) + (if f(d) then [d] else [])
  {
    assert [] + [f] + [] == [f];
    SelectFour(a, b, c, d, [f]);
    forall x: AccountRow
      ensures Satisfies(x, [f]) <==> f(x)
    {
      assert [f][0] == f;
    }
  }

  lemma SelectFour(a: AccountRow, b: AccountRow, c: AccountRow, d: AccountRow, fs: seq<AccountRow -> bool>)
    ensures Select([a, b, c, d], fs)
         == (if Satisfies(a, fs) then [a] else []) + (if Satisfies(b, fs) then [b] else [])
          + (if Satisfies(c, fs) then [c] else []) + (if Satisfies(d, fs) then [d] else [])
  {
    assert [a, b, c, d][..3] == [a, b, c] && [a, b, c][..2] == [a, b] && [a, b][..1] == [a] && [a][..0] == [];
    assert Select([a], fs) == if Satisfies(a, fs) then [a] else [];
    assert Select([a, b], fs) == Select([a], fs) + if Satisfies(b, fs) then [b] else [];
    assert Select([a, b, c], fs) == Select([a, b], fs) + if Satisfies(c, fs) then [c] else [];
  }

  // ------------------------------------------------- projection costs no edge

  /** Two plans that differ at most in which fields each query selects. */
  ghost predicate SameButFields(p: Plan, q: Plan)
    decreases p
  {
    p.filters == q.filters && p.traversers == q.traversers && p.offset == q.offset && p.limit == q.limit &&
    p.proxy.Some? == q.proxy.Some? && p.parent.Some? == q.parent.Some? && p.children.Some? == q.children.Some? &&
    (p.proxy.Some? ==> p.proxy.value.(fields := []) == q.proxy.value.(fields := [])) &&
    (p.parent.Some? ==> SameButFields(p.parent.value, q.parent.value)) &&
    (p.children.Some? ==> SameButFields(p.children.value, q.children.value))
  }

  /** A tree without its scanned fields: IDs and edges only. */
  ghost function Skeleton(t: Tree): Tree
    decreases t
  {
    Tree(Scan(t.scan.id, None, None), t.loaded, t.proxy,
         if t.parent.None? then None else Some(Skeleton(t.parent.value)),
         seq(|t.children|, i requires 0 <= i < |t.children| => Skeleton(t.children[i])))
  }

  /** Whatever fields are selected anywhere in the plan, the IDs and edges are the same. */
  lemma {:induction false} ProjectionKeepsEdges(db: Database, p: Plan, q: Plan, fp: seq<Column>, fq: seq<Column>,
                                                page: seq<AccountRow>, row: AccountRow)
    requires SameButFields(p, q)
    ensures Skeleton(PageJoin(db, p, fp, page, row)) == Skeleton(PageJoin(db, q, fq, page, row))
    decreases p, 1
  {
    KeysAreScanned(fp, p.proxy.Some?, p.parent.Some?);
    KeysAreScanned(fq, q.proxy.Some?, q.parent.Some?);
    var s, t := PageJoin(db, p, fp, page, row), PageJoin(db, q, fq, page, row);
    ProjectionKeepsParent(db, p, q, page, row);
    ProjectionKeepsChildren(db, p, q, page, row);
    assert Skeleton(s).children == Skeleton(t).children;
  }

  lemma {:induction false} ProjectionKeepsParent(db: Database, p: Plan, q: Plan, page: seq<AccountRow>, row: AccountRow)
    requires SameButFields(p, q)
    ensures var s, t := EdgeParent(db, p, page, row), EdgeParent(db, q, page, row);
            s.Some? == t.Some? && (s.Some? ==> Skeleton(s.value) == Skeleton(t.value))
    decreases p, 0
  {
    if p.parent.Some? {
      var pp, qp := p.parent.value, q.parent.value;
      var rows := ParentPage(db, pp, page);
      var at := MatchKey(AccountIDs(rows), row.parentID);
      if at.Some? {
        ProjectionKeepsEdges(db, pp, qp, pp.fields, qp.fields, rows, rows[at.value]);
      }
    }
  }

  lemma {:induction false} ProjectionKeepsChildren(db: Database, p: Plan, q: Plan, page: seq<AccountRow>, row: AccountRow)
    requires SameButFields(p, q)
    ensures var s, t := EdgeChildren(db, p, page, row), EdgeChildren(db, q, page, row);
            |s| == |t| && forall i :: 0 <= i < |s| ==> Skeleton(s[i]) == Skeleton(t[i])
    decreases p, 0
  {
    if p.children.Some? {
      var pc, qc := p.children.value, q.children.value;
      var rows := ChildPage(db, pc, page);
      var mine := Positions(ParentIDs(rows), Some(row.id));
      forall i | 0 <= i < |mine|
        ensures Skeleton(PageJoin(db, pc, ChildFields(pc.fields), rows, rows[mine[i]]))
             == Skeleton(PageJoin(db, qc, ChildFields(qc.fields), rows, rows[mine[i]]))
      {
        ProjectionKeepsEdges(db, pc, qc, ChildFields(pc.fields), ChildFields(qc.fields), rows, rows[mine[i]]);
      }
    }
  }
}
