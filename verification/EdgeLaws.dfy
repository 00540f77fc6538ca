// Laws of single edges: what the accessors of backend/ent/account.go answer after a
// load, that parent and children loads are inverse, and that no child is lost.
module EdgeLaws {
  import opened Prelude
  import opened QueryPlans
  import opened Graph
  import opened EagerLoading
  import opened EagerLoadingLaws

  // -------------------------------------------------------------- accessors

  function IDOf(row: Option<ProxyRow>): Option<int> {
    if row.None? then None else Some(row.value.id)
  }

  /** Not loaded means not requested; not found means requested with no match. */
  lemma AccessorsReportTheLoad(n: Account, db: Database, plan: Plan, page: seq<AccountRow>, row: AccountRow,
                               S: set<Account>)
    ensures Shows(n, PageJoin(db, plan, plan.fields, page, row), S) ==>
              && ProxyReported(n, db, plan, page, row)
              && ParentReported(n, db, plan, page, row, S)
              && ChildrenReported(n, db, plan, page, row, S)
  {
    var t := PageJoin(db, plan, plan.fields, page, row);
    assert t.parent == EdgeParent(db, plan, page, row) && t.children == EdgeChildren(db, plan, page, row);
  }

  ghost predicate ProxyReported(n: Account, db: Database, plan: Plan, page: seq<AccountRow>, row: AccountRow)
    reads n
  {
    match n.ProxyOrErr()
    case Err(NotLoaded) => plan.proxy.None?
    case Err(NotFound) => plan.proxy.Some? && JoinedProxy(db, plan.proxy.value, page, row).None?
    case Ok(p) => plan.proxy.Some? && Some(p.id) == IDOf(JoinedProxy(db, plan.proxy.value, page, row))
  }

  ghost predicate ParentReported(n: Account, db: Database, plan: Plan, page: seq<AccountRow>, row: AccountRow,
                                 S: set<Account>)
    reads n, S
  {
    match n.ParentOrErr()
    case Err(NotLoaded) => plan.parent.None?
    case Err(NotFound) => plan.parent.Some? && JoinedParent(db, plan.parent.value, page, row).None?
    case Ok(p) =>
      plan.parent.Some? && JoinedParent(db, plan.parent.value, page, row).Some? &&
      Shows(p, JoinedParent(db, plan.parent.value, page, row).value, S)
  }

  ghost predicate ChildrenReported(n: Account, db: Database, plan: Plan, page: seq<AccountRow>, row: AccountRow,
                                   S: set<Account>)
    reads n, S
  {
    match n.ChildrenOrErr()
    case Err(NotLoaded) => plan.children.None?
    case Err(NotFound) => false
    case Ok(cs) =>
      plan.children.Some? &&
      var children := JoinedChildren(db, plan.children.value, page, row);
      |cs| == |children| && forall i :: 0 <= i < |children| ==> Shows(cs[i], children[i], S)
  }

  // ------------------------------------------------- parent versus children

  const WITH_PARENT: Plan := EVERYTHING.(parent := Some(EVERYTHING))
  const WITH_CHILDREN: Plan := EVERYTHING.(children := Some(EVERYTHING))

  function TreeIDs(ts: seq<Tree>): seq<int> {
    seq(|ts|, i requires 0 <= i < |ts| => ts[i].scan.id)
  }

  /**
   * In unrestricted loads, `c` is among the children loaded for `p` exactly when `p` is
   * the parent loaded for `c`, exactly when the stored key says so, and no child is
   * listed twice.
   */
  lemma ParentAndChildrenAreInverse(db: Database, page: seq<AccountRow>, page': seq<AccountRow>,
                                    p: AccountRow, c: AccountRow)
    requires KeysDistinct(db) && p in db.accounts && c in db.accounts && p in page && c in page'
    ensures var children := PageJoin(db, WITH_CHILDREN, [], page, p).children;
            var parent := PageJoin(db, WITH_PARENT, [], page', c).parent;
            Distinct(TreeIDs(children)) &&
            (c.id in TreeIDs(children) <==> c.parentID == Some(p.id)) &&
            (parent.Some? && parent.value.scan.id == p.id <==> c.parentID == Some(p.id))
  {
    ChildrenLoaded(db, page, p, c);
    ParentLoaded(db, page', p, c);
  }

  lemma IDScanned(db: Database, plan: Plan, row: AccountRow)
    ensures NestedLoop(db, plan, plan.fields, row).scan.id == row.id
    ensures NestedLoop(db, plan, ChildFields(plan.fields), row).scan.id == row.id
  {
    KeysAreScanned(plan.fields, plan.proxy.Some?, plan.parent.Some?);
    KeysAreScanned(ChildFields(plan.fields), plan.proxy.Some?, plan.parent.Some?);
  }

  lemma ChildrenLoaded(db: Database, page: seq<AccountRow>, p: AccountRow, c: AccountRow)
    requires KeysDistinct(db) && p in page && c in db.accounts
    ensures var children := PageJoin(db, WITH_CHILDREN, [], page, p).children;
            Distinct(TreeIDs(children)) && (c.id in TreeIDs(children) <==> c.parentID == Some(p.id))
  {
    PageJoinIsNestedLoop(db, WITH_CHILDREN, [], page, p);
    var rows := PlanRows(db, EVERYTHING, [ParentIDIn([p.id])]);
    ChildTreeIDs(db, p);
    PlanRowsDistinct(db, EVERYTHING, [ParentIDIn([p.id])]);
    RowsByFilter(db, ParentIDIn([p.id]));
    IDAmongRows(db, rows, c);
  }

  lemma ChildTreeIDs(db: Database, p: AccountRow)
    ensures TreeIDs(LoopChildren(db, EVERYTHING, p)) == AccountIDs(PlanRows(db, EVERYTHING, [ParentIDIn([p.id])]))
  {
    var rows := PlanRows(db, EVERYTHING, [ParentIDIn([p.id])]);
    forall i | 0 <= i < |rows|
      ensures LoopChildren(db, EVERYTHING, p)[i].scan.id == rows[i].id
    {
      IDScanned(db, EVERYTHING, rows[i]);
    }
  }

  lemma IDAmongRows(db: Database, rows: seq<AccountRow>, c: AccountRow)
    requires Distinct(AccountIDs(db.accounts)) && c in db.accounts
    requires forall x :: x in rows ==> x in db.accounts
    ensures c.id in AccountIDs(rows) <==> c in rows
  {
    forall i | 0 <= i < |rows| && rows[i].id == c.id
      ensures c in rows
    {
      assert rows[i] in rows;
      SameKeySameRow(db.accounts, rows[i], c);
    }
    forall i | 0 <= i < |rows| && rows[i] == c
      ensures c.id in AccountIDs(rows)
    {
      assert AccountIDs(rows)[i] == c.id;
    }
  }

  lemma ParentLoaded(db: Database, page: seq<AccountRow>, p: AccountRow, c: AccountRow)
    requires KeysDistinct(db) && c in page && p in db.accounts
    ensures var parent := PageJoin(db, WITH_PARENT, [], page, c).parent;
            parent.Some? && parent.value.scan.id == p.id <==> c.parentID == Some(p.id)
  {
    PageJoinIsNestedLoop(db, WITH_PARENT, [], page, c);
    if c.parentID.Some? {
      ParentTreeID(db, p, c);
    }
  }

  lemma ParentTreeID(db: Database, p: AccountRow, c: AccountRow)
    requires p in db.accounts && c.parentID.Some?
    ensures var parent := LoopParent(db, EVERYTHING, c);
            parent.Some? && parent.value.scan.id == p.id <==> c.parentID.value == p.id
  {
    var rows := PlanRows(db, EVERYTHING, [AccountIDIn([c.parentID.value])]);
    RowsByFilter(db, AccountIDIn([c.parentID.value]));
    assert c.parentID.value == p.id ==> p in rows;
    if rows != [] {
      assert rows[0] in rows;
      IDScanned(db, EVERYTHING, rows[0]);
    }
  }

  lemma RowsByFilter(db: Database, f: AccountRow -> bool)
    ensures forall x :: x in PlanRows(db, EVERYTHING, [f]) <==> x in db.accounts && f(x)
  {
    forall x: AccountRow
      ensures Satisfies(x, [] + [f] + []) <==> f(x)
    {
      SatisfiesSplit(x, [], f, []);
    }
  }

  // ----------------------------------------------------------- conservation

  ghost function ChildCount(nodes: seq<Account>): nat
    reads nodes
  {
    if nodes == [] then 0
    else ChildCount(nodes[..|nodes| - 1]) + |nodes[|nodes| - 1].Children|
  }

  /** Children received by the nodes `some` of the page `nodes`. */
  ghost function GainCount(some: seq<Account>, nodes: seq<Account>, neighbors: seq<Account>): nat {
    if some == [] then 0
    else GainCount(some[..|some| - 1], nodes, neighbors) + |Gained(nodes, neighbors, some[|some| - 1])|
  }

  /** The page node that receives neighbour `n`. */
  ghost function Home(nodes: seq<Account>, n: Account): (h: Account)
    requires HasHome(n, IDsOf(nodes))
    ensures h in nodes
  {
    nodes[LastIndex(IDsOf(nodes), n.parentID.value).value]
  }

  lemma GainOne(nodes: seq<Account>, neighbors: seq<Account>, n: Account, m: Account)
    requires HasHome(n, IDsOf(nodes))
    ensures |Gained(nodes, neighbors + [n], m)|
         == |Gained(nodes, neighbors, m)| + (if m == Home(nodes, n) then 1 else 0)
  {
    ChildrenForSnoc(neighbors, n, m.id);
  }

  lemma SplitLast<T>(s: seq<T>)
    requires s != []
    ensures s == s[..|s| - 1] + [s[|s| - 1]]
  {
  }

  lemma {:induction false} GainCountSnoc(some: seq<Account>, nodes: seq<Account>, neighbors: seq<Account>, n: Account)
    requires Distinct(some) && HasHome(n, IDsOf(nodes))
    ensures GainCount(some, nodes, neighbors + [n])
         == GainCount(some, nodes, neighbors) + (if Home(nodes, n) in some then 1 else 0)
  {
    if some != [] {
      var init, m := some[..|some| - 1], some[|some| - 1];
      SplitLast(some);
      GainCountSnoc(init, nodes, neighbors, n);
      GainOne(nodes, neighbors, n, m);
      assert Home(nodes, n) in some <==> Home(nodes, n) in init || Home(nodes, n) == m;
    }
  }

  lemma {:induction false} GainCountTotal(nodes: seq<Account>, neighbors: seq<Account>)
    requires Distinct(nodes) && AllHoused(neighbors, IDsOf(nodes))
    ensures GainCount(nodes, nodes, neighbors) == |neighbors|
  {
    if neighbors == [] {
      NothingGained(nodes, nodes);
    } else {
      var init, n := neighbors[..|neighbors| - 1], neighbors[|neighbors| - 1];
      SplitLast(neighbors);
      GainCountTotal(nodes, init);
      GainCountSnoc(nodes, nodes, init, n);
    }
  }

  lemma {:induction false} NothingGained(some: seq<Account>, nodes: seq<Account>)
    ensures GainCount(some, nodes, []) == 0
  {
    if some != [] {
      NothingGained(some[..|some| - 1], nodes);
    }
  }

  lemma {:induction false} CountIsGain(some: seq<Account>, nodes: seq<Account>, neighbors: seq<Account>)
    requires forall n :: n in some ==> n.Children == Gained(nodes, neighbors, n)
    ensures ChildCount(some) == GainCount(some, nodes, neighbors)
  {
    if some != [] {
      CountIsGain(some[..|some| - 1], nodes, neighbors);
    }
  }

  /**
   * After a successful scatter onto cleared nodes the children lists of the page add
   * up to the neighbours returned, even when the page repeats an ID.
   */
  lemma ChildrenConserved(nodes: seq<Account>, neighbors: seq<Account>)
    requires Distinct(nodes) && AllHoused(neighbors, IDsOf(nodes))
    requires forall n :: n in nodes ==> n.Children == [] + Gained(nodes, neighbors, n)
    ensures ChildCount(nodes) == |neighbors|
  {
    CountIsGain(nodes, nodes, neighbors);
    GainCountTotal(nodes, neighbors);
  }
}
