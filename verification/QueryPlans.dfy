// The value-level picture of backend/ent/account_query.go: the rows of the
// database, what one query selects, which columns it projects, and the tree of
// entities a query with eager-loaded edges stands for.
module QueryPlans {
  import opened Prelude
  import opened Picking
  import opened AccountColumns
  import ProxyColumns

  // ---------------------------------------------------------------- columns

  predicate FieldsValid(fields: seq<Column>) {
    forall i :: 0 <= i < |fields| ==> ValidColumn(fields[i])
  }

  predicate ProxyFieldsValid(fields: seq<ProxyColumns.Column>) {
    forall i :: 0 <= i < |fields| ==> ProxyColumns.ValidColumn(fields[i])
  }

  /** `AddColumnOnce` and `AppendFieldOnce`: append unless already present. */
  function AppendOnce(columns: seq<Column>, c: Column): seq<Column> {
    if c in columns then columns else columns + [c]
  }

  function AppendOnceIf(cond: bool, columns: seq<Column>, c: Column): seq<Column> {
    if cond then AppendOnce(columns, c) else columns
  }

  function Without(fields: seq<Column>, c: Column): seq<Column> {
    if fields == [] then []
    else Without(fields[..|fields| - 1], c)
         + (if fields[|fields| - 1] == c then [] else [fields[|fields| - 1]])
  }

  /** The columns `querySpec` asks the database for. */
  function SpecColumns(fields: seq<Column>, withProxy: bool, withParent: bool): seq<Column> {
    if fields == [] then COLUMNS
    else
      AppendOnceIf(withParent,
                   AppendOnceIf(withProxy, [ID] + Without(fields, ID), ProxyID),
                   ParentAccountID)
  }

  /** What `loadChildren` does to the field list of the children query. */
  function ChildFields(fields: seq<Column>): seq<Column> {
    AppendOnceIf(|fields| > 0, fields, ParentAccountID)
  }

  lemma {:induction false} WithoutElements(fields: seq<Column>, c: Column)
    ensures c !in Without(fields, c)
    ensures forall x :: x in Without(fields, c) <==> x in fields && x != c
  {
    if fields != [] {
      WithoutElements(fields[..|fields| - 1], c);
      assert fields == fields[..|fields| - 1] + [fields[|fields| - 1]];
    }
  }

  // ------------------------------------------------------------------- rows

  // `rest` stands for the columns eager loading never looks at.
  datatype AccountRow = AccountRow(id: int, proxyID: Option<int>, parentID: Option<int>, rest: map<string, string>)

  datatype ProxyRow = ProxyRow(id: int, rest: map<string, string>)

  datatype Database = Database(accounts: seq<AccountRow>, proxies: seq<ProxyRow>)

  function AccountIDs(rows: seq<AccountRow>): seq<int> {
    seq(|rows|, i requires 0 <= i < |rows| => rows[i].id)
  }

  function ParentIDs(rows: seq<AccountRow>): seq<Option<int>> {
    seq(|rows|, i requires 0 <= i < |rows| => rows[i].parentID)
  }

  function ProxyKeys(rows: seq<AccountRow>): seq<Option<int>> {
    seq(|rows|, i requires 0 <= i < |rows| => rows[i].proxyID)
  }

  function ProxyIDs(rows: seq<ProxyRow>): seq<int> {
    seq(|rows|, i requires 0 <= i < |rows| => rows[i].id)
  }

  /** Primary keys are unique in each table. */
  ghost predicate KeysDistinct(db: Database) {
    Distinct(AccountIDs(db.accounts)) && Distinct(ProxyIDs(db.proxies))
  }

  /** The fields `assignValues` fills in when only `columns` were scanned. */
  datatype Scan = Scan(id: int, proxyID: Option<int>, parentID: Option<int>)

  function ScanRow(row: AccountRow, columns: seq<Column>): Scan {
    Scan(if ID in columns then row.id else 0,
         if ProxyID in columns then row.proxyID else None,
         if ParentAccountID in columns then row.parentID else None)
  }

  // ---------------------------------------------------------------- queries

  predicate Satisfies<R>(row: R, filters: seq<R -> bool>) {
    forall i :: 0 <= i < |filters| ==> filters[i](row)
  }

  function Select<R(!new)>(table: seq<R>, filters: seq<R -> bool>): (r: seq<R>)
    ensures forall x :: x in r <==> x in table && Satisfies(x, filters)
  {
    if table == [] then []
    else
      var last := table[|table| - 1];
      assert table == table[..|table| - 1] + [last];
      Select(table[..|table| - 1], filters) + (if Satisfies(last, filters) then [last] else [])
  }

  function Skip(offset: Option<nat>): nat {
    if offset.Some? then offset.value else 0
  }

  /** Zero stands for no limit, as in the query spec. */
  function Cap(limit: Option<nat>): nat {
    if limit.Some? then limit.value else 0
  }

  function Cut<R>(rows: seq<R>, skip: nat, cap: nat): seq<R> {
    var tail := if skip <= |rows| then rows[skip..] else [];
    if 0 < cap < |tail| then tail[..cap] else tail
  }

  /** OFFSET and LIMIT; an unset one leaves the spec at zero, which means none. */
  function Window<R(!new)>(rows: seq<R>, offset: Option<nat>, limit: Option<nat>): (r: seq<R>)
    ensures offset == None && limit == None ==> r == rows
    ensures forall x :: x in r ==> x in rows
  {
    Cut(rows, Skip(offset), Cap(limit))
  }

  /** What one SELECT returns, in table order. */
  function QueryRows<R(!new)>(table: seq<R>, filters: seq<R -> bool>, offset: Option<nat>, limit: Option<nat>): (r: seq<R>)
    ensures forall x :: x in r ==> x in table && Satisfies(x, filters)
  {
    Window(Select(table, filters), offset, limit)
  }

  function AccountIDIn(ids: seq<int>): AccountRow -> bool {
    (row: AccountRow) => row.id in ids
  }

  function ParentIDIn(ids: seq<int>): AccountRow -> bool {
    (row: AccountRow) => row.parentID.Some? && row.parentID.value in ids
  }

  function ProxyIDIn(ids: seq<int>): ProxyRow -> bool {
    (row: ProxyRow) => row.id in ids
  }

  /** The duplicate-free key list of a many-to-one load, in order of first use. */
  function RequestedKeys(fks: seq<Option<int>>): (r: seq<int>)
    ensures Distinct(r)
    ensures forall k :: k in r <==> Some(k) in fks
  {
    if fks == [] then []
    else
      var last := fks[|fks| - 1];
      var before := RequestedKeys(fks[..|fks| - 1]);
      assert fks == fks[..|fks| - 1] + [last];
      if last.Some? && last.value !in before then before + [last.value] else before
  }

  // ------------------------------------------------------------------ plans

  // Why a query fails before it reaches the database. `UnexpectedNode` is the error a
  // loader raises over a neighbour it did not ask for.
  datatype QueryError = InvalidField | UninitializedInterceptor | Refused(error: string) | UnexpectedNode

  // What preparing a query makes of one interceptor: it was never initialised, it adds a
  // predicate such as the soft-delete filter of ent/schema/mixins, it lets the query
  // pass, or it refuses it.
  datatype Interceptor<!R> = Uninitialized | Adds(p: R -> bool) | Passes | Refuses(error: string)

  /** The predicates added before preparation ends or is broken off. */
  function Added<R>(inters: seq<Interceptor<R>>): seq<R -> bool> {
    if inters == [] || inters[0].Uninitialized? || inters[0].Refuses? then []
    else (if inters[0].Adds? then [inters[0].p] else []) + Added(inters[1..])
  }

  /** The first interceptor that breaks preparation off, if any. */
  function Refusal<R>(inters: seq<Interceptor<R>>): Option<QueryError> {
    if inters == [] then None
    else if inters[0].Uninitialized? then Some(UninitializedInterceptor)
    else if inters[0].Refuses? then Some(Refused(inters[0].error))
    else Refusal(inters[1..])
  }

  predicate AddsOne<R>(inter: Interceptor<R>) {
    inter.Adds?
  }

  function PredicateOf<R>(inter: Interceptor<R>): R -> bool {
    if inter.Adds? then inter.p else row => true
  }

  /**
   * Preparation over `inters`, said without the loop: either none of them breaks it off,
   * or one at `n` is the first to do so and `err` is its error; and `added` are exactly
   * the predicates that the interceptors before that add, in order.
   */
  ghost predicate Traversed<R>(inters: seq<Interceptor<R>>, n: nat, added: seq<R -> bool>, err: Option<QueryError>) {
    n <= |inters| &&
    (forall k :: 0 <= k < n ==> inters[k].Adds? || inters[k].Passes?) &&
    (n == |inters| ==> err == None) &&
    (n < |inters| ==>
       (inters[n].Uninitialized? && err == Some(UninitializedInterceptor)) ||
       (inters[n].Refuses? && err == Some(Refused(inters[n].error)))) &&
    Picks(inters[..n], AddsOne, PredicateOf, added)
  }

  /** Every predicate asked for: the builder's own, and each one an interceptor adds. */
  ghost predicate Admits<R>(filters: seq<R -> bool>, inters: seq<Interceptor<R>>, row: R) {
    (forall i :: 0 <= i < |filters| ==> filters[i](row)) &&
    forall k :: 0 <= k < |inters| && inters[k].Adds? ==> inters[k].p(row)
  }

  lemma {:induction false} AddedSatisfied<R>(inters: seq<Interceptor<R>>, row: R)
    requires Refusal(inters) == None
    ensures Satisfies(row, Added(inters)) <==> Admits([], inters, row)
  {
    if inters != [] {
      var rest := inters[1..];
      AddedSatisfied(rest, row);
      assert forall k :: 1 <= k < |inters| ==> inters[k] == rest[k - 1];
      assert forall k :: 0 <= k < |rest| ==> rest[k] == inters[k + 1];
      assert Admits([], inters, row) <==> (inters[0].Adds? ==> inters[0].p(row)) && Admits([], rest, row);
      var own := if inters[0].Adds? then [inters[0].p] else [];
      SatisfiesAppend(row, own, Added(rest));
    }
  }

  lemma SatisfiesAppend<R>(row: R, f: seq<R -> bool>, g: seq<R -> bool>)
    ensures Satisfies(row, f + g) <==> Satisfies(row, f) && Satisfies(row, g)
  {
    var all := f + g;
    assert forall i :: 0 <= i < |f| ==> all[i] == f[i];
    assert forall i :: 0 <= i < |g| ==> all[|f| + i] == g[i];
    assert forall i :: |f| <= i < |all| ==> all[i] == g[i - |f|];
  }

  /** The rows of a prepared query are those every predicate and every interceptor admits, in table order. */
  ghost predicate SelectsAdmitted<R(!new)>(table: seq<R>, filters: seq<R -> bool>, inters: seq<Interceptor<R>>,
                                           rows: seq<R>) {
    Picks(table, (row: R) => Admits(filters, inters, row), (row: R) => row, rows)
  }

  /** What a run lists: the rows selected, cut to the window, each by its ID. */
  ghost predicate ListsAdmitted<R(!new)>(table: seq<R>, filters: seq<R -> bool>, inters: seq<Interceptor<R>>,
                                         offset: Option<nat>, limit: Option<nat>, idsOf: seq<R> -> seq<int>,
                                         ids: seq<int>) {
    exists rows :: SelectsAdmitted(table, filters, inters, rows) && ids == idsOf(Window(rows, offset, limit))
  }

  lemma RunListsAdmitted<R(!new)>(table: seq<R>, filters: seq<R -> bool>, inters: seq<Interceptor<R>>,
                                  offset: Option<nat>, limit: Option<nat>, idsOf: seq<R> -> seq<int>)
    requires Refusal(inters) == None
    ensures ListsAdmitted(table, filters, inters, offset, limit, idsOf,
                          idsOf(QueryRows(table, filters + [] + Added(inters), offset, limit)))
  {
    SelectAdmitted(table, filters, inters);
  }

  lemma {:induction false} SelectAdmitted<R(!new)>(table: seq<R>, filters: seq<R -> bool>, inters: seq<Interceptor<R>>)
    requires Refusal(inters) == None
    ensures SelectsAdmitted(table, filters, inters, Select(table, filters + [] + Added(inters)))
  {
    var all := filters + [] + Added(inters);
    var admits, same := (row: R) => Admits(filters, inters, row), (row: R) => row;
    if table == [] {
      PicksNothing(admits, same);
    } else {
      var init, last := table[..|table| - 1], table[|table| - 1];
      assert table == init + [last];
      SelectAdmitted(init, filters, inters);
      PicksSnoc(init, last, admits, same, Select(init, all));
      assert filters + [] == filters;
      SatisfiesAppend(last, filters, Added(inters));
      AddedSatisfied(inters, last);
    }
  }

  lemma OneMoreAdded<R>(inters: seq<Interceptor<R>>, i: nat, added: seq<R -> bool>)
    requires i < |inters| && Picks(inters[..i], AddsOne, PredicateOf, added)
    ensures Picks(inters[..i + 1], AddsOne, PredicateOf, added + if inters[i].Adds? then [inters[i].p] else [])
  {
    TakeSnoc(inters, i);
    PicksSnoc(inters[..i], inters[i], AddsOne, PredicateOf, added);
  }

  lemma AddedFrom<R>(inters: seq<Interceptor<R>>, i: nat, added: seq<R -> bool>)
    requires i < |inters| && (inters[i].Adds? || inters[i].Passes?)
    ensures var own := if inters[i].Adds? then [inters[i].p] else [];
            added + Added(inters[i..]) == (added + own) + Added(inters[i + 1..])
    ensures Refusal(inters[i..]) == Refusal(inters[i + 1..])
  {
    var own := if inters[i].Adds? then [inters[i].p] else [];
    assert inters[i..][1..] == inters[i + 1..];
    assert added + (own + Added(inters[i + 1..])) == added + own + Added(inters[i + 1..]);
  }

  lemma StopsAt<R>(inters: seq<Interceptor<R>>, i: nat, added: seq<R -> bool>)
    requires i <= |inters| && forall k :: 0 <= k < i ==> inters[k].Adds? || inters[k].Passes?
    requires Picks(inters[..i], AddsOne, PredicateOf, added)
    requires i < |inters| ==> inters[i].Uninitialized? || inters[i].Refuses?
    ensures Traversed(inters, i, added + Added(inters[i..]), Refusal(inters[i..]))
  {
    assert added + [] == added;
  }

  /** What the interceptor loop adds, and how it ends, in terms of the interceptors alone. */
  lemma {:induction false} TraversedExact<R>(inters: seq<Interceptor<R>>, i: nat, added: seq<R -> bool>) returns (n: nat)
    requires i <= |inters| && forall k :: 0 <= k < i ==> inters[k].Adds? || inters[k].Passes?
    requires Picks(inters[..i], AddsOne, PredicateOf, added)
    ensures Traversed(inters, n, added + Added(inters[i..]), Refusal(inters[i..]))
    decreases |inters| - i
  {
    if i == |inters| || inters[i].Uninitialized? || inters[i].Refuses? {
      n := i;
      StopsAt(inters, i, added);
    } else {
      var own := if inters[i].Adds? then [inters[i].p] else [];
      OneMoreAdded(inters, i, added);
      n := TraversedExact(inters, i + 1, added + own);
      AddedFrom(inters, i, added);
      assert Traversed(inters, n, (added + own) + Added(inters[i + 1..]), Refusal(inters[i + 1..]));
    }
  }

  /** `prepareQuery`: the interceptors first, and if none of them breaks it off, the field selection. */
  ghost predicate Prepared<R>(inters: seq<Interceptor<R>>, before: seq<R -> bool>, after: seq<R -> bool>,
                              fieldsValid: bool, err: Option<QueryError>) {
    before <= after &&
    exists n: nat, refused ::
      Traversed(inters, n, after[|before|..], refused) &&
      err == if refused.Some? || fieldsValid then refused else Some(InvalidField)
  }

  lemma PreparedExact<R>(inters: seq<Interceptor<R>>, before: seq<R -> bool>, fieldsValid: bool)
    ensures Prepared(inters, before, before + Added(inters), fieldsValid,
                     if Refusal(inters).Some? || fieldsValid then Refusal(inters) else Some(InvalidField))
  {
    PicksNothing<Interceptor<R>, R -> bool>(AddsOne, PredicateOf);
    assert inters[..0] == [] && inters[0..] == inters && [] + Added(inters) == Added(inters);
    var n := TraversedExact(inters, 0, []);
    assert (before + Added(inters))[|before|..] == Added(inters);
  }

  // The state of a query builder, read as a value: `traversers` are the predicates its
  // interceptors add each time it is prepared, `refusal` is how they break it off.
  datatype ProxyPlan = ProxyPlan(
    filters: seq<ProxyRow -> bool>, traversers: seq<ProxyRow -> bool>, refusal: Option<QueryError>,
    fields: seq<ProxyColumns.Column>, offset: Option<nat>, limit: Option<nat>)

  datatype Plan = QueryPlan(
    filters: seq<AccountRow -> bool>, traversers: seq<AccountRow -> bool>, refusal: Option<QueryError>,
    fields: seq<Column>, offset: Option<nat>, limit: Option<nat>,
    proxy: Option<ProxyPlan>, parent: Option<Plan>, children: Option<Plan>)

  function PlanColumns(plan: Plan, fields: seq<Column>): seq<Column> {
    SpecColumns(fields, plan.proxy.Some?, plan.parent.Some?)
  }

  function PlanRows(db: Database, plan: Plan, extra: seq<AccountRow -> bool>): (r: seq<AccountRow>)
    ensures forall x :: x in r ==> x in db.accounts && Satisfies(x, plan.filters + extra + plan.traversers)
  {
    QueryRows(db.accounts, plan.filters + extra + plan.traversers, plan.offset, plan.limit)
  }

  function ProxyPlanRows(db: Database, plan: ProxyPlan, extra: seq<ProxyRow -> bool>): (r: seq<ProxyRow>)
    ensures forall x :: x in r ==> x in db.proxies && Satisfies(x, plan.filters + extra + plan.traversers)
  {
    QueryRows(db.proxies, plan.filters + extra + plan.traversers, plan.offset, plan.limit)
  }

  function ProxyPage(db: Database, plan: ProxyPlan, page: seq<AccountRow>): seq<ProxyRow> {
    ProxyPlanRows(db, plan, [ProxyIDIn(RequestedKeys(ProxyKeys(page)))])
  }

  function ParentPage(db: Database, plan: Plan, page: seq<AccountRow>): seq<AccountRow> {
    PlanRows(db, plan, [AccountIDIn(RequestedKeys(ParentIDs(page)))])
  }

  function ChildPage(db: Database, plan: Plan, page: seq<AccountRow>): seq<AccountRow> {
    PlanRows(db, plan, [ParentIDIn(AccountIDs(page))])
  }

  // ------------------------------------------------------------------ trees

  datatype LoadedTypes = LoadedTypes(proxy: bool, parent: bool, children: bool)

  function RequestedEdges(plan: Plan): LoadedTypes {
    LoadedTypes(plan.proxy.Some?, plan.parent.Some?, plan.children.Some?)
  }

  datatype Tree = Tree(
    scan: Scan, loaded: LoadedTypes,
    proxy: Option<ProxyRow>, parent: Option<Tree>, children: seq<Tree>)

  /** The row of `rows` that a many-to-one edge with key `fk` ends up pointing at. */
  function MatchKey(ids: seq<int>, fk: Option<int>): (r: Option<nat>)
    ensures r.Some? ==> fk.Some? && r.value < |ids| && ids[r.value] == fk.value
    ensures r.None? ==> fk.None? || fk.value !in ids
  {
    if fk.None? then None else LastIndex(ids, fk.value)
  }

  function JoinedProxy(db: Database, q: ProxyPlan, page: seq<AccountRow>, row: AccountRow): Option<ProxyRow> {
    var rows := ProxyPage(db, q, page);
    var at := MatchKey(ProxyIDs(rows), row.proxyID);
    if at.None? then None else Some(rows[at.value])
  }

  /** What the page loaders build for `row`, one batched query per edge of the page. */
  function PageJoin(db: Database, plan: Plan, fields: seq<Column>, page: seq<AccountRow>, row: AccountRow): Tree
    decreases plan, 2
  {
    Tree(
      ScanRow(row, PlanColumns(plan, fields)),
      RequestedEdges(plan),
      EdgeProxy(db, plan, page, row),
      EdgeParent(db, plan, page, row),
      EdgeChildren(db, plan, page, row))
  }

  function EdgeProxy(db: Database, plan: Plan, page: seq<AccountRow>, row: AccountRow): Option<ProxyRow> {
    match plan.proxy
    case None => None
    case Some(q) => JoinedProxy(db, q, page, row)
  }

  function EdgeParent(db: Database, plan: Plan, page: seq<AccountRow>, row: AccountRow): Option<Tree>
    decreases plan, 1
  {
    match plan.parent
    case None => None
    case Some(q) => JoinedParent(db, q, page, row)
  }

  function EdgeChildren(db: Database, plan: Plan, page: seq<AccountRow>, row: AccountRow): seq<Tree>
    decreases plan, 1
  {
    match plan.children
    case None => []
    case Some(q) => JoinedChildren(db, q, page, row)
  }

  function JoinedParent(db: Database, q: Plan, page: seq<AccountRow>, row: AccountRow): Option<Tree>
    decreases q, 3
  {
    var rows := ParentPage(db, q, page);
    var at := MatchKey(AccountIDs(rows), row.parentID);
    if at.None? then None else Some(PageJoin(db, q, q.fields, rows, rows[at.value]))
  }

  function JoinedChildren(db: Database, q: Plan, page: seq<AccountRow>, row: AccountRow): seq<Tree>
    decreases q, 3
  {
    var rows := ChildPage(db, q, page);
    var mine := Positions(ParentIDs(rows), Some(row.id));
    seq(|mine|, i requires 0 <= i < |mine| => PageJoin(db, q, ChildFields(q.fields), rows, rows[mine[i]]))
  }

  /** The same tree by the naive nested loop: every row runs its own neighbour queries. */
  function NestedLoop(db: Database, plan: Plan, fields: seq<Column>, row: AccountRow): Tree
    decreases plan, 2
  {
    Tree(
      ScanRow(row, PlanColumns(plan, fields)),
      RequestedEdges(plan),
      if plan.proxy.None? then None else LoopProxy(db, plan.proxy.value, row),
      if plan.parent.None? then None else LoopParent(db, plan.parent.value, row),
      if plan.children.None? then [] else LoopChildren(db, plan.children.value, row))
  }

  function LoopProxy(db: Database, q: ProxyPlan, row: AccountRow): Option<ProxyRow> {
    if row.proxyID.None? then None
    else
      var rows := ProxyPlanRows(db, q, [ProxyIDIn([row.proxyID.value])]);
      if rows == [] then None else Some(rows[0])
  }

  function LoopParent(db: Database, q: Plan, row: AccountRow): Option<Tree>
    decreases q, 3
  {
    if row.parentID.None? then None
    else
      var rows := PlanRows(db, q, [AccountIDIn([row.parentID.value])]);
      if rows == [] then None else Some(NestedLoop(db, q, q.fields, rows[0]))
  }

  function LoopChildren(db: Database, q: Plan, row: AccountRow): seq<Tree>
    decreases q, 3
  {
    var rows := PlanRows(db, q, [ParentIDIn([row.id])]);
    seq(|rows|, i requires 0 <= i < |rows| => NestedLoop(db, q, ChildFields(q.fields), rows[i]))
  }

  /** No OFFSET or LIMIT on any eager-loaded edge below the root. */
  predicate Unwindowed(plan: Plan)
    decreases plan
  {
    (plan.proxy.Some? ==> plan.proxy.value.offset == None && plan.proxy.value.limit == None) &&
    (plan.parent.Some? ==>
       plan.parent.value.offset == None && plan.parent.value.limit == None && Unwindowed(plan.parent.value)) &&
    (plan.children.Some? ==>
       plan.children.value.offset == None && plan.children.value.limit == None && Unwindowed(plan.children.value))
  }

  // ----------------------------------------------------------------- errors

  /** What `prepareQuery` reports: interceptors first, then the field selection. */
  function PrepareError(plan: Plan, fields: seq<Column>): Option<QueryError> {
    if plan.refusal.Some? then plan.refusal
    else if FieldsValid(fields) then None
    else Some(InvalidField)
  }

  function ProxyPrepareError(q: ProxyPlan): Option<QueryError> {
    if q.refusal.Some? then q.refusal
    else if ProxyFieldsValid(q.fields) then None
    else Some(InvalidField)
  }

  function First(a: Option<QueryError>, b: Option<QueryError>): Option<QueryError> {
    if a.Some? then a else b
  }

  /** The first error running the plan on these root rows meets, edge by edge and level by level. */
  function RunError(db: Database, plan: Plan, fields: seq<Column>, page: seq<AccountRow>): Option<QueryError>
    decreases plan, 3
  {
    First(PrepareError(plan, fields), if page == [] then None else EdgesError(db, plan, page))
  }

  function EdgesError(db: Database, plan: Plan, page: seq<AccountRow>): Option<QueryError>
    decreases plan, 2
  {
    First(ProxyEdgeError(plan, page), AccountEdgesError(db, plan, page))
  }

  function AccountEdgesError(db: Database, plan: Plan, page: seq<AccountRow>): Option<QueryError>
    decreases plan, 1
  {
    First(if plan.parent.None? then None else ParentError(db, plan.parent.value, page),
          if plan.children.None? then None else ChildrenError(db, plan.children.value, page))
  }

  function ProxyEdgeError(plan: Plan, page: seq<AccountRow>): Option<QueryError> {
    if plan.proxy.None? then None else ProxyError(plan.proxy.value, page)
  }

  /** The proxy query is issued only if the page has proxy keys at all. */
  function ProxyError(q: ProxyPlan, page: seq<AccountRow>): Option<QueryError> {
    if RequestedKeys(ProxyKeys(page)) == [] then None else ProxyPrepareError(q)
  }

  function ParentError(db: Database, q: Plan, page: seq<AccountRow>): Option<QueryError>
    decreases q, 4
  {
    if RequestedKeys(ParentIDs(page)) == [] then None else RunError(db, q, q.fields, ParentPage(db, q, page))
  }

  /** The children query is always issued. */
  function ChildrenError(db: Database, q: Plan, page: seq<AccountRow>): Option<QueryError>
    decreases q, 4
  {
    RunError(db, q, ChildFields(q.fields), ChildPage(db, q, page))
  }

  /** The result of a run is the error expected of it, or a success where none is. */
  ghost predicate Reports<T>(r: Result<T, QueryError>, e: Option<QueryError>) {
    match r
    case Ok(_) => e.None?
    case Err(error) => e == Some(error)
  }

  // ------------------------------------------------- the builder after a run

  /**
   * The builder after a run, read as a value: every query that was prepared keeps the
   * key predicate it was given and the predicates its interceptors added; queries the
   * run did not reach are as they were.
   */
  function After(db: Database, plan: Plan, extra: seq<AccountRow -> bool>, fields: seq<Column>): Plan
    decreases plan, 3
  {
    var ran := plan.(filters := plan.filters + extra + plan.traversers, fields := fields);
    var page := PlanRows(db, plan, extra);
    if PrepareError(plan, fields).Some? || page == [] then ran
    else
      ran.(proxy := AfterProxyEdge(plan, page),
           parent := AfterParentEdge(db, plan, page),
           children := AfterChildrenEdge(db, plan, page))
  }

  function AfterProxyEdge(plan: Plan, page: seq<AccountRow>): Option<ProxyPlan> {
    if plan.proxy.None? then None else Some(AfterProxy(plan.proxy.value, page))
  }

  function AfterProxy(q: ProxyPlan, page: seq<AccountRow>): ProxyPlan {
    var ids := RequestedKeys(ProxyKeys(page));
    if ids == [] then q else q.(filters := q.filters + [ProxyIDIn(ids)] + q.traversers)
  }

  function AfterParentEdge(db: Database, plan: Plan, page: seq<AccountRow>): Option<Plan>
    decreases plan, 2
  {
    if plan.parent.None? || ProxyEdgeError(plan, page).Some? then plan.parent
    else Some(AfterParent(db, plan.parent.value, page))
  }

  function AfterParent(db: Database, q: Plan, page: seq<AccountRow>): Plan
    decreases q, 4
  {
    var ids := RequestedKeys(ParentIDs(page));
    if ids == [] then q else After(db, q, [AccountIDIn(ids)], q.fields)
  }

  function AfterChildrenEdge(db: Database, plan: Plan, page: seq<AccountRow>): Option<Plan>
    decreases plan, 2
  {
    if plan.children.None? || ProxyEdgeError(plan, page).Some?
       || (plan.parent.Some? && ParentError(db, plan.parent.value, page).Some?)
    then plan.children
    else Some(AfterChildren(db, plan.children.value, page))
  }

  function AfterChildren(db: Database, q: Plan, page: seq<AccountRow>): Plan
    decreases q, 4
  {
    After(db, q, [ParentIDIn(AccountIDs(page))], ChildFields(q.fields))
  }

  // --------------------------------------------------- facts about the spec

  /** The foreign keys `querySpec` adds for the eager loads, those not selected already. */
  function AddedKeys(fields: seq<Column>, withProxy: bool, withParent: bool): seq<Column> {
    (if withProxy && ProxyID !in fields then [ProxyID] else []) +
    (if withParent && ParentAccountID !in fields then [ParentAccountID] else [])
  }

  /** `id` comes first and only once, the other selected fields keep their order and repeats. */
  lemma SpecColumnsExact(fields: seq<Column>, withProxy: bool, withParent: bool)
    requires fields != []
    ensures var cs := SpecColumns(fields, withProxy, withParent);
            cs == [ID] + Without(fields, ID) + AddedKeys(fields, withProxy, withParent) && ID !in cs[1..]
  {
    WithoutElements(fields, ID);
    var base := [ID] + Without(fields, ID);
    assert ProxyID in base <==> ProxyID in fields;
    var one := AppendOnceIf(withProxy, base, ProxyID);
    assert ParentAccountID in one <==> ParentAccountID in fields;
  }

  /** Every key an eager load reads from the scanned nodes has been scanned. */
  lemma KeysAreScanned(fields: seq<Column>, withProxy: bool, withParent: bool)
    ensures var cs := SpecColumns(fields, withProxy, withParent);
            ID in cs && (withProxy ==> ProxyID in cs) && (withParent ==> ParentAccountID in cs) &&
            (ParentAccountID in fields || fields == [] ==> ParentAccountID in cs)
  {
    if fields == [] {
      assert COLUMNS[0] == ID && COLUMNS[10] == ProxyID && COLUMNS[30] == ParentAccountID;
    } else {
      SpecColumnsExact(fields, withProxy, withParent);
      WithoutElements(fields, ID);
    }
  }

  lemma {:induction false} SelectDistinct(table: seq<AccountRow>, filters: seq<AccountRow -> bool>)
    requires Distinct(AccountIDs(table))
    ensures Distinct(AccountIDs(Select(table, filters)))
  {
    if table != [] {
      var init, last := table[..|table| - 1], table[|table| - 1];
      forall i, j | 0 <= i < j < |init|
        ensures AccountIDs(init)[i] != AccountIDs(init)[j]
      {
        assert AccountIDs(table)[i] != AccountIDs(table)[j];
      }
      SelectDistinct(init, filters);
      forall x | x in init
        ensures x.id != last.id
      {
        var i :| 0 <= i < |init| && init[i] == x;
        assert AccountIDs(table)[i] != AccountIDs(table)[|init|];
      }
      var r, kept := Select(table, filters), Select(init, filters);
      forall i, j | 0 <= i < j < |r|
        ensures AccountIDs(r)[i] != AccountIDs(r)[j]
      {
        assert r[i] == kept[i] && kept[i] in kept;
        assert j < |kept| ==> AccountIDs(kept)[i] != AccountIDs(kept)[j];
      }
    }
  }

  lemma PlanRowsDistinct(db: Database, plan: Plan, extra: seq<AccountRow -> bool>)
    requires KeysDistinct(db)
    ensures Distinct(AccountIDs(PlanRows(db, plan, extra)))
  {
    var rows := Select(db.accounts, plan.filters + extra + plan.traversers);
    SelectDistinct(db.accounts, plan.filters + extra + plan.traversers);
    var skip := if plan.offset.Some? then plan.offset.value else 0;
    var r := PlanRows(db, plan, extra);
    forall i, j | 0 <= i < j < |r|
      ensures AccountIDs(r)[i] != AccountIDs(r)[j]
    {
      assert AccountIDs(rows)[skip + i] != AccountIDs(rows)[skip + j];
    }
  }

  lemma {:induction false} NoKeysRequested(fks: seq<Option<int>>)
    requires RequestedKeys(fks) == []
    ensures forall i :: 0 <= i < |fks| ==> fks[i] == None
  {
  }

  lemma ExtraHolds<R>(row: R, filters: seq<R -> bool>, extra: R -> bool, traversers: seq<R -> bool>)
    requires Satisfies(row, filters + [extra] + traversers)
    ensures extra(row)
  {
    assert (filters + [extra] + traversers)[|filters|] == extra;
  }

  /** Key restriction and the added field change what a query selects, not what its edges mean. */
  lemma SameEdges(db: Database, p: Plan, q: Plan, fields: seq<Column>, page: seq<AccountRow>, row: AccountRow)
    requires p.proxy == q.proxy && p.parent == q.parent && p.children == q.children
    ensures PageJoin(db, p, fields, page, row) == PageJoin(db, q, fields, page, row)
  {
  }

  lemma SameErrors(db: Database, p: Plan, q: Plan, fields: seq<Column>, page: seq<AccountRow>)
    requires p.proxy == q.proxy && p.parent == q.parent && p.children == q.children && p.refusal == q.refusal
    ensures RunError(db, p, fields, page) == RunError(db, q, fields, page)
  {
    assert AccountEdgesError(db, p, page) == AccountEdgesError(db, q, page);
    assert EdgesError(db, p, page) == EdgesError(db, q, page);
  }

  /** Running a query restricted beforehand is running it with the restriction as an extra. */
  lemma RestrictedRun(db: Database, p: Plan, q: Plan, extra: AccountRow -> bool)
    requires q == p.(filters := p.filters + [extra], fields := q.fields)
    ensures After(db, q, [], q.fields) == After(db, p, [extra], q.fields)
  {
    RestrictedRows(db, p, q, extra);
    assert q.filters + [] + q.traversers == p.filters + [extra] + p.traversers;
  }

  lemma RestrictedRows(db: Database, p: Plan, q: Plan, extra: AccountRow -> bool)
    requires q.filters == p.filters + [extra]
    requires q.traversers == p.traversers && q.offset == p.offset && q.limit == p.limit
    ensures PlanRows(db, q, []) == PlanRows(db, p, [extra])
  {
    assert q.filters + [] + q.traversers == p.filters + [extra] + p.traversers;
  }

  // ------------------------------------------------------ the parts, spelled out

  /** The field list of a children query gains the foreign key once, if there is a selection at all. */
  lemma ChildFieldsExact(fields: seq<Column>)
    ensures fields == [] ==> ChildFields(fields) == []
    ensures fields != [] && ParentAccountID in fields ==> ChildFields(fields) == fields
    ensures fields != [] && ParentAccountID !in fields ==> ChildFields(fields) == fields + [ParentAccountID]
  {
  }

  /** Without a field selection every column of the table is asked for. */
  lemma EverythingSelected(withProxy: bool, withParent: bool, c: Column)
    ensures c in SpecColumns([], withProxy, withParent) <==> !c.Unknown?
  {
    ColumnsExact(c);
  }

  /** Scanning tells the selected columns, leaves the others at their zero value, and looks at nothing else. */
  lemma ScanTells(row: AccountRow, columns: seq<Column>)
    ensures ID in columns ==> ScanRow(row, columns).id == row.id
    ensures ProxyID in columns ==> ScanRow(row, columns).proxyID == row.proxyID
    ensures ParentAccountID in columns ==> ScanRow(row, columns).parentID == row.parentID
    ensures ID !in columns ==> ScanRow(row, columns).id == 0
    ensures ProxyID !in columns ==> ScanRow(row, columns).proxyID == None
    ensures ParentAccountID !in columns ==> ScanRow(row, columns).parentID == None
  {
  }

  ghost predicate SomeProxyKey(page: seq<AccountRow>) {
    exists i :: 0 <= i < |page| && page[i].proxyID.Some?
  }

  ghost predicate SomeParentKey(page: seq<AccountRow>) {
    exists i :: 0 <= i < |page| && page[i].parentID.Some?
  }

  lemma KeysRequested(page: seq<AccountRow>)
    ensures RequestedKeys(ProxyKeys(page)) == [] <==> !SomeProxyKey(page)
    ensures RequestedKeys(ParentIDs(page)) == [] <==> !SomeParentKey(page)
  {
    forall i | 0 <= i < |page|
      ensures page[i].proxyID.Some? ==> page[i].proxyID.value in RequestedKeys(ProxyKeys(page))
      ensures page[i].parentID.Some? ==> page[i].parentID.value in RequestedKeys(ParentIDs(page))
    {
      assert ProxyKeys(page)[i] == page[i].proxyID && ParentIDs(page)[i] == page[i].parentID;
    }
    if RequestedKeys(ProxyKeys(page)) != [] {
      var k := RequestedKeys(ProxyKeys(page))[0];
      assert Some(k) in ProxyKeys(page);
      var i :| 0 <= i < |page| && ProxyKeys(page)[i] == Some(k);
      assert page[i].proxyID.Some?;
    }
    if RequestedKeys(ParentIDs(page)) != [] {
      var k := RequestedKeys(ParentIDs(page))[0];
      assert Some(k) in ParentIDs(page);
      var i :| 0 <= i < |page| && ParentIDs(page)[i] == Some(k);
      assert page[i].parentID.Some?;
    }
  }

  /** Some selected field is not a column of the table. */
  ghost predicate SomeUnknown(fields: seq<Column>) {
    exists i :: 0 <= i < |fields| && fields[i].Unknown?
  }

  ghost predicate SomeUnknownProxyField(fields: seq<ProxyColumns.Column>) {
    exists i :: 0 <= i < |fields| && fields[i].Unknown?
  }

  lemma FieldsMean(fields: seq<Column>)
    ensures FieldsValid(fields) <==> !SomeUnknown(fields)
  {
    forall i | 0 <= i < |fields|
      ensures ValidColumn(fields[i]) <==> !fields[i].Unknown?
    {
      ColumnsExact(fields[i]);
    }
  }

  lemma ProxyFieldsMean(fields: seq<ProxyColumns.Column>)
    ensures ProxyFieldsValid(fields) <==> !SomeUnknownProxyField(fields)
  {
    forall i | 0 <= i < |fields|
      ensures ProxyColumns.ValidColumn(fields[i]) <==> !fields[i].Unknown?
    {
      ProxyColumns.ColumnsExact(fields[i]);
    }
  }

  /** Which error a run reports: the query's own first, then edge by edge, each only if the page asks for it. */
  lemma RunErrorInOrder(db: Database, plan: Plan, fields: seq<Column>, page: seq<AccountRow>)
    ensures plan.refusal.Some? ==> RunError(db, plan, fields, page) == plan.refusal
    ensures plan.refusal.None? && SomeUnknown(fields) ==> RunError(db, plan, fields, page) == Some(InvalidField)
    ensures plan.refusal.None? && !SomeUnknown(fields) && page == [] ==> RunError(db, plan, fields, page) == None
    ensures plan.refusal.None? && !SomeUnknown(fields) && page != [] ==>
              RunError(db, plan, fields, page) == EdgesError(db, plan, page)
  {
    FieldsMean(fields);
  }

  /** The proxy query fails only if some row has a proxy key at all. */
  ghost predicate ProxyFails(plan: Plan, page: seq<AccountRow>) {
    plan.proxy.Some? && SomeProxyKey(page)
    && (plan.proxy.value.refusal.Some? || SomeUnknownProxyField(plan.proxy.value.fields))
  }

  lemma ProxyErrorMeans(plan: Plan, page: seq<AccountRow>)
    ensures ProxyEdgeError(plan, page)
         == if !ProxyFails(plan, page) then None
            else if plan.proxy.value.refusal.Some? then plan.proxy.value.refusal
            else Some(InvalidField)
  {
    KeysRequested(page);
    if plan.proxy.Some? {
      ProxyFieldsMean(plan.proxy.value.fields);
    }
  }

  lemma EdgesErrorInOrder(db: Database, plan: Plan, page: seq<AccountRow>)
    ensures var parentError := if plan.parent.Some? && SomeParentKey(page)
                               then RunError(db, plan.parent.value, plan.parent.value.fields,
                                             ParentPage(db, plan.parent.value, page))
                               else None;
            EdgesError(db, plan, page)
            == if ProxyFails(plan, page) then
                 (if plan.proxy.value.refusal.Some? then plan.proxy.value.refusal else Some(InvalidField))
               else if parentError.Some? then parentError
               else if plan.children.Some? then
                 RunError(db, plan.children.value, ChildFields(plan.children.value.fields),
                          ChildPage(db, plan.children.value, page))
               else None
  {
    ProxyErrorMeans(plan, page);
    KeysRequested(page);
    if plan.parent.Some? {
      assert ParentError(db, plan.parent.value, page) ==
             if SomeParentKey(page) then RunError(db, plan.parent.value, plan.parent.value.fields,
                                                  ParentPage(db, plan.parent.value, page)) else None;
    }
    if plan.children.Some? {
      assert ChildrenError(db, plan.children.value, page) ==
             RunError(db, plan.children.value, ChildFields(plan.children.value.fields),
                      ChildPage(db, plan.children.value, page));
    }
  }
}
