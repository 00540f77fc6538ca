// `AccountQuery` of backend/ent/account_query.go: a mutable builder whose
// eager-loaded edges are builders themselves. Running it recurses over the builder
// tree, never over the data, so cyclic parent links cannot make it loop.
module AccountQueries {
  import opened Prelude
  import opened AccountColumns
  import opened QueryPlans
  import ProxyColumns
  import opened Graph
  import opened EagerLoading

  /** The interceptor loop of `prepareQuery`; what is added before a refusal stays. */
  method Traverse<R>(predicates: seq<R -> bool>, inters: seq<Interceptor<R>>)
    returns (all: seq<R -> bool>, err: Option<QueryError>)
    ensures all == predicates + Added(inters)
    ensures err == Refusal(inters)
    ensures Prepared(inters, predicates, all, true, err)
  {
    PreparedExact(inters, predicates, true);
    all := predicates;
    assert inters[0..] == inters;
    for i := 0 to |inters|
      invariant all + Added(inters[i..]) == predicates + Added(inters)
      invariant Refusal(inters[i..]) == Refusal(inters)
    {
      assert inters[i..][1..] == inters[i + 1..];
      match inters[i] {
        case Uninitialized =>
          return all, Some(UninitializedInterceptor);
        case Refuses(error) =>
          return all, Some(Refused(error));
        case Adds(p) =>
          assert all + ([p] + Added(inters[i + 1..])) == (all + [p]) + Added(inters[i + 1..]);
          all := all + [p];
        case Passes =>
          assert [] + Added(inters[i + 1..]) == Added(inters[i + 1..]);
      }
    }
    err := None;
  }

  method ValidateFields(fields: seq<Column>) returns (err: Option<QueryError>)
    ensures err == if FieldsValid(fields) then None else Some(InvalidField)
  {
    for i := 0 to |fields|
      invariant FieldsValid(fields[..i])
    {
      if !ValidColumn(fields[i]) {
        return Some(InvalidField);
      }
    }
    assert fields[..|fields|] == fields;
    err := None;
  }

  method ValidateProxyFields(fields: seq<ProxyColumns.Column>) returns (err: Option<QueryError>)
    ensures err == if ProxyFieldsValid(fields) then None else Some(InvalidField)
  {
    for i := 0 to |fields|
      invariant ProxyFieldsValid(fields[..i])
    {
      if !ProxyColumns.ValidColumn(fields[i]) {
        return Some(InvalidField);
      }
    }
    assert fields[..|fields|] == fields;
    err := None;
  }

  function ErrorOf<T>(r: Result<T, QueryError>): Option<QueryError> {
    if r.Ok? then None else Some(r.error)
  }

  /** The predicates a prepared builder is left with; if preparing it fails, so does the run. */
  ghost predicate PreparedFor<T>(inters: seq<Interceptor<AccountRow>>, before: seq<AccountRow -> bool>,
                                 after: seq<AccountRow -> bool>, fieldsValid: bool, r: Result<T, QueryError>) {
    exists err :: Prepared(inters, before, after, fieldsValid, err) && (err.Some? ==> r == Err(err.value))
  }

  class ProxyQuery {
    var predicates: seq<ProxyRow -> bool>
    var inters: seq<Interceptor<ProxyRow>>
    var fields: seq<ProxyColumns.Column>
    var offset: Option<nat>
    var limit: Option<nat>

    constructor ()
      ensures Plan() == ProxyPlan([], [], None, [], None, None)
    {
      predicates, inters, fields, offset, limit := [], [], [], None, None;
    }

    ghost function Plan(): ProxyPlan
      reads this
    {
      ProxyPlan(predicates, Added(inters), Refusal(inters), fields, offset, limit)
    }

    method PrepareQuery() returns (err: Option<QueryError>)
      modifies this`predicates
      ensures Plan() == old(Plan()).(filters := old(predicates) + old(Plan()).traversers)
      ensures err == ProxyPrepareError(old(Plan()))
      ensures Prepared(inters, old(predicates), predicates, ProxyFieldsValid(fields), err)
    {
      PreparedExact(inters, predicates, ProxyFieldsValid(fields));
      predicates, err := Traverse(predicates, inters);
      if err.None? {
        err := ValidateProxyFields(fields);
      }
    }

    method All(db: Database) returns (r: Result<seq<Proxy>, QueryError>)
      modifies this`predicates
      ensures Plan() == old(Plan()).(filters := old(predicates) + old(Plan()).traversers)
      ensures Reports(r, ProxyPrepareError(old(Plan())))
      ensures r.Ok? ==> ProxyIDsOf(r.value) == ProxyIDs(ProxyPlanRows(db, old(Plan()), []))
      ensures Prepared(inters, old(predicates), predicates, ProxyFieldsValid(fields), ErrorOf(r))
      ensures r.Ok? ==>
                ListsAdmitted(db.proxies, old(predicates), inters, offset, limit, ProxyIDs, ProxyIDsOf(r.value))
    {
      ghost var plan := Plan();
      var err := PrepareQuery();
      if err.Some? {
        return Err(err.value);
      }
      var rows := QueryRows(db.proxies, predicates, offset, limit);
      assert plan.filters + [] + plan.traversers == predicates;
      RunListsAdmitted(db.proxies, plan.filters, inters, offset, limit, ProxyIDs);
      var nodes := ScanProxies(rows);
      r := Ok(nodes);
    }

    method ScanProxies(rows: seq<ProxyRow>) returns (nodes: seq<Proxy>)
      ensures ProxyIDsOf(nodes) == ProxyIDs(rows)
    {
      nodes := [];
      for i := 0 to |rows|
        invariant ProxyIDsOf(nodes) == ProxyIDs(rows[..i])
      {
        var node := new Proxy(rows[i]);
        ProxyIDsSnoc(nodes, node);
        nodes := nodes + [node];
      }
      assert rows[..|rows|] == rows;
    }
  }

  class AccountQuery {
    var predicates: seq<AccountRow -> bool>
    var inters: seq<Interceptor<AccountRow>>
    var fields: seq<Column>
    var offset: Option<nat>
    var limit: Option<nat>
    var withProxy: ProxyQuery?
    var withParent: AccountQuery?
    var withChildren: AccountQuery?

    ghost var Repr: set<object>

    /** The builders below this one form a tree. */
    ghost predicate Valid()
      reads this, Repr
      decreases Repr
    {
      this in Repr &&
      (withProxy != null ==> withProxy in Repr) &&
      (withParent != null ==>
         withParent in Repr && withParent.Repr <= Repr - {this, withProxy} && withParent.Valid()) &&
      (withChildren != null ==>
         withChildren in Repr && withChildren.Repr <= Repr - {this, withProxy} && withChildren.Valid()) &&
      (withParent != null && withChildren != null ==> withParent.Repr !! withChildren.Repr)
    }

    /** The builder tree read as a value. */
    ghost function Plan(): Plan
      requires Valid()
      reads this, Repr
      decreases Repr
    {
      QueryPlan(predicates, Added(inters), Refusal(inters), fields, offset, limit,
                if withProxy == null then None else Some(withProxy.Plan()),
                if withParent == null then None else Some(withParent.Plan()),
                if withChildren == null then None else Some(withChildren.Plan()))
    }

    constructor ()
      ensures Valid() && fresh(Repr)
      ensures Plan() == QueryPlan([], [], None, [], None, None, None, None, None)
    {
      predicates, inters, fields := [], [], [];
      offset, limit := None, None;
      withProxy, withParent, withChildren := null, null, null;
      Repr := {this};
    }

    /** `WithParent`: `query` is the fresh builder the options were applied to. */
    method WithParent(query: AccountQuery)
      requires Valid() && query.Valid() && query.Repr !! Repr
      modifies this
      ensures Valid() && Repr == old(Repr) + query.Repr
      ensures Plan() == old(Plan()).(parent := Some(old(query.Plan())))
    {
      withParent := query;
      Repr := Repr + query.Repr;
    }

    method WithChildren(query: AccountQuery)
      requires Valid() && query.Valid() && query.Repr !! Repr
      modifies this
      ensures Valid() && Repr == old(Repr) + query.Repr
      ensures Plan() == old(Plan()).(children := Some(old(query.Plan())))
    {
      withChildren := query;
      Repr := Repr + query.Repr;
    }

    /** The column list of `querySpec`. */
    method QuerySpecColumns() returns (columns: seq<Column>)
      ensures columns == SpecColumns(fields, withProxy != null, withParent != null)
    {
      columns := COLUMNS;
      if |fields| > 0 {
        columns := [ID];
        for i := 0 to |fields|
          invariant columns == [ID] + Without(fields[..i], ID)
        {
          assert fields[..i + 1][..i] == fields[..i];
          if fields[i] != ID {
            columns := columns + [fields[i]];
          }
        }
        assert fields[..|fields|] == fields;
        if withProxy != null {
          columns := AppendOnce(columns, ProxyID);
        }
        if withParent != null {
          columns := AppendOnce(columns, ParentAccountID);
        }
      }
    }

    /** `Where` followed by one more key restriction. */
    method Where(p: AccountRow -> bool)
      requires Valid()
      modifies this`predicates
      ensures Valid()
      ensures Plan() == old(Plan()).(filters := old(predicates) + [p])
    {
      predicates := predicates + [p];
    }

    /** What `loadChildren` does to the children builder before running it. */
    method RestrictToChildrenOf(ids: seq<int>)
      requires Valid()
      modifies this`predicates, this`fields
      ensures Valid()
      ensures Plan() == old(Plan()).(filters := old(predicates) + [ParentIDIn(ids)], fields := ChildFields(old(fields)))
    {
      if |fields| > 0 {
        fields := AppendOnce(fields, ParentAccountID);
      }
      Where(ParentIDIn(ids));
    }

    method SetPredicates(all: seq<AccountRow -> bool>)
      requires Valid()
      modifies this`predicates
      ensures Valid()
      ensures Plan() == old(Plan()).(filters := all)
    {
      predicates := all;
    }

    /** `prepareQuery`: interceptors add their predicates, then the fields are validated. */
    method PrepareQuery() returns (err: Option<QueryError>)
      requires Valid()
      modifies this`predicates
      ensures Valid()
      ensures Plan() == old(Plan()).(filters := old(predicates) + old(Plan()).traversers)
      ensures err == PrepareError(old(Plan()), fields)
      ensures Prepared(inters, old(predicates), predicates, FieldsValid(fields), err)
    {
      PreparedExact(inters, predicates, FieldsValid(fields));
      var all, refused := Traverse(predicates, inters);
      SetPredicates(all);
      err := refused;
      if err.None? {
        err := ValidateFields(fields);
      }
    }

    /** Scanning the rows of this query alone into fresh nodes, edges still empty. */
    method ScanNodes(rows: seq<AccountRow>, columns: seq<Column>) returns (nodes: seq<Account>)
      ensures |nodes| == |rows| && Distinct(nodes)
      ensures fresh(set n | n in nodes)
      ensures var loaded := LoadedTypes(withProxy != null, withParent != null, withChildren != null);
              forall i :: 0 <= i < |rows| ==> Scanned(nodes[i], ScanRow(rows[i], columns), loaded)
      ensures forall i :: 0 <= i < |rows| ==> Bare(nodes[i])
    {
      var loaded := LoadedTypes(withProxy != null, withParent != null, withChildren != null);
      nodes := [];
      for i := 0 to |rows|
        invariant |nodes| == i && Distinct(nodes)
        invariant forall n :: n in nodes ==> fresh(n)
        invariant forall k :: 0 <= k < i ==> Scanned(nodes[k], ScanRow(rows[k], columns), loaded)
        invariant forall k :: 0 <= k < i ==> Bare(nodes[k])
      {
        var node := new Account(ScanRow(rows[i], columns), loaded);
        nodes := nodes + [node];
      }
    }

    /** `All`: prepare the query, then `sqlAll`. */
    method All(db: Database) returns (r: Result<seq<Account>, QueryError>, ghost S: set<Account>)
      requires KeysDistinct(db) && Valid()
      modifies Repr
      ensures Valid() && Repr == old(Repr) && fresh(S)
      ensures Plan() == After(db, old(Plan()), [], old(fields))
      ensures Reports(r, RunError(db, old(Plan()), old(fields), PlanRows(db, old(Plan()), [])))
      ensures r.Ok? ==> ShowsPage(db, old(Plan()), r.value, S)
      ensures PreparedFor(old(inters), old(predicates), predicates, FieldsValid(old(fields)), r)
      ensures r.Ok? ==>
                ListsAdmitted(db.accounts, old(predicates), old(inters), old(offset), old(limit), AccountIDs,
                              IDsOf(r.value))
      decreases Repr, 2
    {
      ghost var plan, asked := Plan(), inters;
      assert plan.filters + [] + plan.traversers == plan.filters + plan.traversers;
      var err := PrepareQuery();
      if err.Some? {
        return Err(err.value), {};
      }
      r, S := SqlAll(db, plan);
      if r.Ok? {
        RunListsAdmitted(db.accounts, plan.filters, asked, plan.offset, plan.limit, AccountIDs);
        IDsScanned(db, plan, plan.fields, PlanRows(db, plan, []), r.value, S);
      }
    }

    method SqlAll(db: Database, ghost plan: Plan)
      returns (r: Result<seq<Account>, QueryError>, ghost S: set<Account>)
      requires KeysDistinct(db) && Valid() && PrepareError(plan, fields) == None
      requires Plan() == plan.(filters := predicates) && predicates == plan.filters + [] + plan.traversers
      modifies Repr
      ensures Valid() && Repr == old(Repr) && fresh(S)
      ensures Plan() == After(db, plan, [], plan.fields)
      ensures Reports(r, RunError(db, plan, plan.fields, PlanRows(db, plan, [])))
      ensures r.Ok? ==> ShowsPage(db, plan, r.value, S)
      decreases Repr, 1
    {
      var columns := QuerySpecColumns();
      var rows := QueryRows(db.accounts, predicates, offset, limit);
      assert rows == PlanRows(db, plan, []);
      var nodes := ScanNodes(rows, columns);
      if |nodes| == 0 {
        return Ok(nodes), {};
      }
      PlanRowsDistinct(db, plan, []);
      var err;
      err, S := LoadEdges(db, nodes, rows, plan);
      r := if err.None? then Ok(nodes) else Err(err.value);
    }

    /** The loads of `sqlAll`, and what they leave in the nested builders. */
    method LoadEdges(db: Database, nodes: seq<Account>, ghost page: seq<AccountRow>, ghost plan: Plan)
      returns (err: Option<QueryError>, ghost S: set<Account>)
      requires KeysDistinct(db) && Valid() && Plan() == plan.(filters := predicates)
      requires Distinct(AccountIDs(page)) && OnPage(nodes, plan, page)
      requires forall n :: n in nodes ==> n !in Repr && Bare(n)
      modifies Repr - {this}, (set n | n in nodes)
      ensures Valid() && Repr == old(Repr)
      ensures Plan() == plan.(filters := predicates, proxy := AfterProxyEdge(plan, page),
                              parent := AfterParentEdge(db, plan, page), children := AfterChildrenEdge(db, plan, page))
      ensures fresh(S - NodeSet(nodes))
      ensures err == EdgesError(db, plan, page)
      ensures err.None? ==> ShowsRows(db, plan, plan.fields, page, nodes, S)
      decreases Repr, 0
    {
      err, S := LoadEachEdge(db, withProxy, withParent, withChildren, nodes, page, plan);
    }
  }

  // ------------------------------------------------------------------ edges

  ghost function ReprOf(query: AccountQuery?): set<object>
    reads query
  {
    if query == null then {} else query.Repr
  }

  ghost function ProxyReprOf(query: ProxyQuery?): set<object> {
    if query == null then {} else {query}
  }

  /** `query` is the builder of an edge planned as `plan`. */
  ghost predicate Stands(query: AccountQuery?, plan: Option<Plan>)
    reads query, ReprOf(query)
  {
    if query == null then plan.None? else query.Valid() && plan == Some(query.Plan())
  }

  ghost predicate ProxyStands(query: ProxyQuery?, plan: Option<ProxyPlan>)
    reads query
  {
    if query == null then plan.None? else plan == Some(query.Plan())
  }

  /** In the order of `sqlAll`: proxy, then parent, then children. */
  method LoadEachEdge(db: Database, proxy: ProxyQuery?, parent: AccountQuery?, children: AccountQuery?,
                      nodes: seq<Account>, ghost page: seq<AccountRow>, ghost plan: Plan)
    returns (err: Option<QueryError>, ghost S: set<Account>)
    requires KeysDistinct(db) && ReprOf(parent) !! ReprOf(children)
    requires ProxyReprOf(proxy) !! ReprOf(parent) + ReprOf(children)
    requires ProxyStands(proxy, plan.proxy) && Stands(parent, plan.parent) && Stands(children, plan.children)
    requires Distinct(AccountIDs(page)) && OnPage(nodes, plan, page)
    requires NodeSet(nodes) !! ReprOf(parent) + ReprOf(children)
    requires forall n :: n in nodes ==> Bare(n)
    modifies ProxyReprOf(proxy), ReprOf(parent), ReprOf(children), (set n | n in nodes)
    ensures ReprOf(parent) == old(ReprOf(parent)) && ReprOf(children) == old(ReprOf(children))
    ensures ProxyStands(proxy, AfterProxyEdge(plan, page)) && Stands(parent, AfterParentEdge(db, plan, page))
    ensures Stands(children, AfterChildrenEdge(db, plan, page))
    ensures fresh(S - NodeSet(nodes))
    ensures err == EdgesError(db, plan, page)
    ensures err.None? ==> ShowsRows(db, plan, plan.fields, page, nodes, S)
    decreases ReprOf(parent) + ReprOf(children), 8
  {
    err := LoadProxyEdge(db, proxy, nodes, page, plan);
    S := {};
    if err.None? {
      err, S := LoadRemainingEdges(db, parent, children, nodes, page, plan);
    }
  }

  method LoadProxyEdge(db: Database, query: ProxyQuery?, nodes: seq<Account>, ghost page: seq<AccountRow>, ghost plan: Plan)
    returns (err: Option<QueryError>)
    requires ProxyStands(query, plan.proxy) && OnPage(nodes, plan, page)
    requires forall n :: n in nodes ==> n.Proxy == null
    modifies ProxyReprOf(query), (set n | n in nodes)`Proxy
    ensures ProxyStands(query, AfterProxyEdge(plan, page))
    ensures err == ProxyEdgeError(plan, page)
    ensures err.None? ==> ProxiesShown(db, plan, page, nodes)
  {
    if query != null {
      PageKeys(nodes, plan, page);
      err := LoadProxy(db, query, nodes, page, plan.proxy.value);
    } else {
      err := None;
      forall i | 0 <= i < |nodes|
        ensures ProxyIs(nodes[i].Proxy, EdgeProxy(db, plan, page, page[i]))
      {
        assert nodes[i] in nodes;
      }
    }
  }

  /** Parent and children, once the proxies are in place. */
  method LoadRemainingEdges(db: Database, parent: AccountQuery?, children: AccountQuery?,
                            nodes: seq<Account>, ghost page: seq<AccountRow>, ghost plan: Plan)
    returns (err: Option<QueryError>, ghost S: set<Account>)
    requires KeysDistinct(db) && ReprOf(parent) !! ReprOf(children) && ProxyEdgeError(plan, page) == None
    requires Stands(parent, plan.parent) && Stands(children, plan.children)
    requires Distinct(AccountIDs(page)) && OnPage(nodes, plan, page) && ProxiesShown(db, plan, page, nodes)
    requires NodeSet(nodes) !! ReprOf(parent) + ReprOf(children)
    requires forall n :: n in nodes ==> n.Parent == null && n.Children == []
    modifies ReprOf(parent), ReprOf(children), (set n | n in nodes)`Parent, (set n | n in nodes)`Children
    ensures ReprOf(parent) == old(ReprOf(parent)) && ReprOf(children) == old(ReprOf(children))
    ensures Stands(parent, AfterParentEdge(db, plan, page)) && Stands(children, AfterChildrenEdge(db, plan, page))
    ensures fresh(S - NodeSet(nodes))
    ensures err == AccountEdgesError(db, plan, page)
    ensures err.None? ==> ShowsRows(db, plan, plan.fields, page, nodes, S)
    decreases ReprOf(parent) + ReprOf(children), 7
  {
    ghost var S1, S2;
    ghost var proxies := seq(|nodes|, i requires 0 <= i < |nodes| reads nodes => nodes[i].Proxy);
    err, S1, S2 := LoadAccountEdges(db, parent, children, nodes, page, plan);
    S := S1 + S2 + NodeSet(nodes);
    if err.None? {
      AssemblePage(db, plan, page, nodes, proxies, S1, S2);
    }
  }

  method LoadAccountEdges(db: Database, parent: AccountQuery?, children: AccountQuery?,
                          nodes: seq<Account>, ghost page: seq<AccountRow>, ghost plan: Plan)
    returns (err: Option<QueryError>, ghost S1: set<Account>, ghost S2: set<Account>)
    requires KeysDistinct(db) && ReprOf(parent) !! ReprOf(children) && ProxyEdgeError(plan, page) == None
    requires Stands(parent, plan.parent) && Stands(children, plan.children)
    requires Distinct(AccountIDs(page)) && OnPage(nodes, plan, page)
    requires NodeSet(nodes) !! ReprOf(parent) + ReprOf(children)
    requires forall n :: n in nodes ==> n.Parent == null && n.Children == []
    modifies ReprOf(parent), ReprOf(children), (set n | n in nodes)`Parent, (set n | n in nodes)`Children
    ensures ReprOf(parent) == old(ReprOf(parent)) && ReprOf(children) == old(ReprOf(children))
    ensures Stands(parent, AfterParentEdge(db, plan, page)) && Stands(children, AfterChildrenEdge(db, plan, page))
    ensures fresh(S1) && fresh(S2)
    ensures err == AccountEdgesError(db, plan, page)
    ensures err.None? ==> ParentsShown(db, plan, page, nodes, S1) && ChildrenShown(db, plan, page, nodes, S2)
    decreases ReprOf(parent) + ReprOf(children), 6
  {
    S2 := {};
    err, S1 := LoadParentEdge(db, parent, nodes, page, plan);
    if err.None? {
      assert S1 !! ReprOf(children) && S1 !! NodeSet(nodes);
      err, S2 := LoadChildrenEdge(db, children, nodes, page, plan);
      assert ParentsShown(db, plan, page, nodes, S1);
    }
  }

  method LoadParentEdge(db: Database, query: AccountQuery?, nodes: seq<Account>, ghost page: seq<AccountRow>,
                        ghost plan: Plan)
    returns (err: Option<QueryError>, ghost S: set<Account>)
    requires KeysDistinct(db) && ProxyEdgeError(plan, page) == None
    requires Stands(query, plan.parent) && OnPage(nodes, plan, page)
    requires NodeSet(nodes) !! ReprOf(query) && forall n :: n in nodes ==> n.Parent == null
    modifies ReprOf(query), (set n | n in nodes)`Parent
    ensures ReprOf(query) == old(ReprOf(query)) && Stands(query, AfterParentEdge(db, plan, page))
    ensures fresh(S)
    ensures err == if plan.parent.None? then None else ParentError(db, plan.parent.value, page)
    ensures err.None? ==> ParentsShown(db, plan, page, nodes, S)
    decreases ReprOf(query), 5
  {
    err, S := None, {};
    if query != null {
      PageKeys(nodes, plan, page);
      err, S := LoadParent(db, query, nodes, page, plan.parent.value);
    } else {
      forall i | 0 <= i < |nodes|
        ensures ParentIs(nodes[i].Parent, EdgeParent(db, plan, page, page[i]), S)
      {
        assert nodes[i] in nodes;
      }
    }
  }

  method LoadChildrenEdge(db: Database, query: AccountQuery?, nodes: seq<Account>, ghost page: seq<AccountRow>,
                          ghost plan: Plan)
    returns (err: Option<QueryError>, ghost S: set<Account>)
    requires KeysDistinct(db) && ProxyEdgeError(plan, page) == None
    requires plan.parent.Some? ==> ParentError(db, plan.parent.value, page) == None
    requires Stands(query, plan.children) && Distinct(AccountIDs(page)) && OnPage(nodes, plan, page)
    requires NodeSet(nodes) !! ReprOf(query) && forall n :: n in nodes ==> n.Children == []
    modifies ReprOf(query), (set n | n in nodes)`Children
    ensures ReprOf(query) == old(ReprOf(query)) && Stands(query, AfterChildrenEdge(db, plan, page))
    ensures fresh(S)
    ensures err == if plan.children.None? then None else ChildrenError(db, plan.children.value, page)
    ensures err.None? ==> ChildrenShown(db, plan, page, nodes, S)
    decreases ReprOf(query), 5
  {
    err, S := None, {};
    if query != null {
      PageKeys(nodes, plan, page);
      err, S := LoadChildren(db, query, nodes, page, plan.children.value);
    } else {
      forall i | 0 <= i < |nodes|
        ensures ChildrenAre(nodes[i].Children, EdgeChildren(db, plan, page, page[i]), S)
      {
        assert nodes[i] in nodes;
      }
    }
  }

  /** The freshly scanned nodes of one query. */
  ghost predicate OnPage(nodes: seq<Account>, plan: Plan, page: seq<AccountRow>) {
    |nodes| == |page| &&
    forall i :: 0 <= i < |nodes| ==>
      Scanned(nodes[i], ScanRow(page[i], PlanColumns(plan, plan.fields)), RequestedEdges(plan))
  }

  /** Whatever was selected, the nodes carry the keys the requested loads read. */
  lemma PageKeys(nodes: seq<Account>, plan: Plan, page: seq<AccountRow>)
    requires OnPage(nodes, plan, page)
    ensures IDsOf(nodes) == AccountIDs(page)
    ensures plan.proxy.Some? ==> ProxyKeysOf(nodes) == ProxyKeys(page)
    ensures plan.parent.Some? ==> ParentsOf(nodes) == ParentIDs(page)
  {
    KeysAreScanned(plan.fields, plan.proxy.Some?, plan.parent.Some?);
  }

  ghost predicate ProxiesShown(db: Database, plan: Plan, page: seq<AccountRow>, nodes: seq<Account>)
    requires |nodes| == |page|
    reads nodes
  {
    forall i :: 0 <= i < |nodes| ==> ProxyIs(nodes[i].Proxy, EdgeProxy(db, plan, page, page[i]))
  }

  ghost predicate ParentsShown(db: Database, plan: Plan, page: seq<AccountRow>, nodes: seq<Account>, S: set<Account>)
    requires |nodes| == |page|
    reads nodes, S
  {
    forall i :: 0 <= i < |nodes| ==> ParentIs(nodes[i].Parent, EdgeParent(db, plan, page, page[i]), S)
  }

  ghost predicate ChildrenShown(db: Database, plan: Plan, page: seq<AccountRow>, nodes: seq<Account>, S: set<Account>)
    requires |nodes| == |page|
    reads nodes, S
  {
    forall i :: 0 <= i < |nodes| ==> ChildrenAre(nodes[i].Children, EdgeChildren(db, plan, page, page[i]), S)
  }

  ghost function NodeSet(nodes: seq<Account>): set<Account> {
    set n | n in nodes
  }

  lemma AssemblePage(db: Database, plan: Plan, page: seq<AccountRow>, nodes: seq<Account>, proxies: seq<Proxy?>,
                     S1: set<Account>, S2: set<Account>)
    requires OnPage(nodes, plan, page) && |proxies| == |nodes|
    requires forall i :: 0 <= i < |nodes| ==> nodes[i].Proxy == proxies[i]
    requires forall i :: 0 <= i < |nodes| ==> ProxyIs(proxies[i], EdgeProxy(db, plan, page, page[i]))
    requires ParentsShown(db, plan, page, nodes, S1) && ChildrenShown(db, plan, page, nodes, S2)
    ensures ShowsRows(db, plan, plan.fields, page, nodes, S1 + S2 + NodeSet(nodes))
  {
    forall i | 0 <= i < |nodes|
      ensures Shows(nodes[i], PageJoin(db, plan, plan.fields, page, page[i]), S1 + S2 + NodeSet(nodes))
    {
      Assemble(nodes[i], PageJoin(db, plan, plan.fields, page, page[i]), S1 + S2 + NodeSet(nodes), S1, S2);
    }
  }

  ghost predicate Scanned(n: Account, scan: Scan, loaded: LoadedTypes) {
    n.id == scan.id && n.proxyID == scan.proxyID && n.parentID == scan.parentID && n.loaded == loaded
  }

  ghost predicate Bare(n: Account)
    reads n
  {
    n.Proxy == null && n.Parent == null && n.Children == []
  }

  // ---------------------------------------------------------------- loaders

  ghost predicate ProxyIs(p: Proxy?, row: Option<ProxyRow>) {
    match row
    case None => p == null
    case Some(r) => p != null && p.id == r.id
  }

  method LoadProxy(db: Database, query: ProxyQuery, nodes: seq<Account>, ghost page: seq<AccountRow>,
                   ghost plan: ProxyPlan)
    returns (err: Option<QueryError>)
    requires query.Plan() == plan
    requires |nodes| == |page| && ProxyKeysOf(nodes) == ProxyKeys(page)
    requires forall n :: n in nodes ==> n.Proxy == null
    modifies query, (set n | n in nodes)`Proxy
    ensures query.Plan() == AfterProxy(plan, page)
    ensures err == ProxyError(plan, page)
    ensures err.None? ==>
              forall i :: 0 <= i < |nodes| ==> ProxyIs(nodes[i].Proxy, JoinedProxy(db, plan, page, page[i]))
  {
    var fks := seq(|nodes|, i requires 0 <= i < |nodes| => nodes[i].proxyID);
    var ids, nodeids := IndexForeignKeys(nodes, fks);
    if |ids| == 0 {
      NoKeysRequested(fks);
      forall i | 0 <= i < |nodes|
        ensures page[i].proxyID == None
      {
        assert ProxyKeys(page)[i] == fks[i];
      }
      return None;
    }
    var r := QueryProxies(db, query, ids, page, plan);
    if r.Err? {
      return Some(r.error);
    }
    err := AttachProxies(nodes, nodeids, r.value, db, page, plan);
  }

  /** The neighbour query of `loadProxy`. */
  method QueryProxies(db: Database, query: ProxyQuery, ids: seq<int>, ghost page: seq<AccountRow>, ghost plan: ProxyPlan)
    returns (r: Result<seq<Proxy>, QueryError>)
    requires query.Plan() == plan && ids == RequestedKeys(ProxyKeys(page))
    modifies query
    ensures query.Plan() == plan.(filters := plan.filters + [ProxyIDIn(ids)] + plan.traversers)
    ensures Reports(r, ProxyPrepareError(plan))
    ensures r.Ok? ==> ProxyIDsOf(r.value) == ProxyIDs(ProxyPage(db, plan, page))
  {
    query.predicates := query.predicates + [ProxyIDIn(ids)];
    assert plan.filters + [ProxyIDIn(ids)] + [] + plan.traversers
        == plan.filters + [ProxyIDIn(ids)] + plan.traversers;
    r := query.All(db);
  }

  method AttachProxies(nodes: seq<Account>, nodeids: map<int, seq<Account>>, neighbors: seq<Proxy>,
                       ghost db: Database, ghost page: seq<AccountRow>, ghost plan: ProxyPlan)
    returns (err: Option<QueryError>)
    requires |nodes| == |page| && ProxyKeysOf(nodes) == ProxyKeys(page)
    requires GroupedByKey(nodes, ProxyKeysOf(nodes), nodeids)
    requires forall n :: n in nodes ==> n.Proxy == null
    requires ProxyIDsOf(neighbors) == ProxyIDs(ProxyPage(db, plan, page))
    modifies (set n | n in nodes)`Proxy
    ensures err == None
    ensures forall i :: 0 <= i < |nodes| ==> ProxyIs(nodes[i].Proxy, JoinedProxy(db, plan, page, page[i]))
  {
    ProxyRowsWanted(db, plan, page);
    var bad := ScatterProxies(nodes, nodeids, neighbors);
    err := if bad.None? then None else Some(UnexpectedNode);
    forall i | 0 <= i < |nodes|
      ensures ProxyIs(nodes[i].Proxy, JoinedProxy(db, plan, page, page[i]))
    {
      assert ProxyKeysOf(nodes)[i] == ProxyKeys(page)[i];
      ProxyJoin(db, plan, page, page[i], neighbors, nodes[i]);
    }
  }

  lemma ProxyRowsWanted(db: Database, q: ProxyPlan, page: seq<AccountRow>)
    ensures Wanted(ProxyIDs(ProxyPage(db, q, page)), ProxyKeys(page))
  {
    var rows := ProxyPage(db, q, page);
    var ids := RequestedKeys(ProxyKeys(page));
    forall j | 0 <= j < |rows|
      ensures Some(rows[j].id) in ProxyKeys(page)
    {
      assert rows[j] in rows;
      ExtraHolds(rows[j], q.filters, ProxyIDIn(ids), q.traversers);
    }
  }

  lemma ProxyJoin(db: Database, q: ProxyPlan, page: seq<AccountRow>, row: AccountRow,
                  neighbors: seq<Proxy>, n: Account)
    requires ProxyIDsOf(neighbors) == ProxyIDs(ProxyPage(db, q, page))
    requires n.Proxy == Target(ProxyIDsOf(neighbors), neighbors, row.proxyID, null)
    ensures ProxyIs(n.Proxy, JoinedProxy(db, q, page, row))
  {
  }

  lemma Assemble(n: Account, t: Tree, S: set<Account>, S1: set<Account>, S2: set<Account>)
    requires n in S && S1 <= S && S2 <= S
    requires Scanned(n, t.scan, t.loaded)
    requires ProxyIs(n.Proxy, t.proxy) && ParentIs(n.Parent, t.parent, S1) && ChildrenAre(n.Children, t.children, S2)
    ensures Shows(n, t, S)
  {
    if t.parent.Some? {
      ShowsMonotone(n.Parent, t.parent.value, S1, S);
    }
    forall i | 0 <= i < |t.children|
      ensures Shows(n.Children[i], t.children[i], S)
    {
      ShowsMonotone(n.Children[i], t.children[i], S2, S);
    }
  }

  ghost predicate ParentIs(p: Account?, t: Option<Tree>, S: set<Account>)
    reads S
  {
    match t
    case None => p == null
    case Some(u) => p != null && Shows(p, u, S)
  }

  ghost predicate ChildrenAre(cs: seq<Account>, ts: seq<Tree>, S: set<Account>)
    reads S
  {
    |cs| == |ts| && forall i :: 0 <= i < |ts| ==> Shows(cs[i], ts[i], S)
  }

  /** The nodes `All` returns spell out the page join of `plan`, row by row. */
  ghost predicate ShowsPage(db: Database, plan: Plan, nodes: seq<Account>, S: set<Account>)
    reads S
  {
    ShowsRows(db, plan, plan.fields, PlanRows(db, plan, []), nodes, S)
  }

  ghost predicate ShowsRows(db: Database, plan: Plan, fields: seq<Column>, rows: seq<AccountRow>,
                            nodes: seq<Account>, S: set<Account>)
    reads S
  {
    |nodes| == |rows| &&
    forall i :: 0 <= i < |nodes| ==> Shows(nodes[i], PageJoin(db, plan, fields, rows, rows[i]), S)
  }

  lemma ParentJoin(db: Database, q: Plan, page: seq<AccountRow>, row: AccountRow,
                   neighbors: seq<Account>, S: set<Account>, n: Account)
    requires IDsOf(neighbors) == AccountIDs(ParentPage(db, q, page))
    requires ShowsRows(db, q, q.fields, ParentPage(db, q, page), neighbors, S)
    requires n.Parent == Target(IDsOf(neighbors), neighbors, row.parentID, null)
    ensures ParentIs(n.Parent, JoinedParent(db, q, page, row), S)
  {
    var rows := ParentPage(db, q, page);
    var at := MatchKey(AccountIDs(rows), row.parentID);
    if at.Some? {
      assert Shows(neighbors[at.value], PageJoin(db, q, q.fields, rows, rows[at.value]), S);
    }
  }

  lemma ChildrenJoin(db: Database, q: Plan, page: seq<AccountRow>, row: AccountRow,
                     neighbors: seq<Account>, S: set<Account>, n: Account)
    requires ParentsOf(neighbors) == ParentIDs(ChildPage(db, q, page))
    ensures ShowsRows(db, q, ChildFields(q.fields), ChildPage(db, q, page), neighbors, S) &&
            n.Children == ChildrenFor(neighbors, row.id) ==>
              ChildrenAre(n.Children, JoinedChildren(db, q, page, row), S)
  {
  }

  /** The neighbour query of `loadParent`: restrict to the requested keys and run. */
  method QueryParents(db: Database, query: AccountQuery, ids: seq<int>, ghost page: seq<AccountRow>, ghost plan: Plan)
    returns (r: Result<seq<Account>, QueryError>, ghost S: set<Account>)
    requires KeysDistinct(db) && query.Valid() && query.Plan() == plan
    requires ids == RequestedKeys(ParentIDs(page))
    modifies query.Repr
    ensures query.Valid() && query.Repr == old(query.Repr) && fresh(S)
    ensures query.Plan() == After(db, plan, [AccountIDIn(ids)], plan.fields)
    ensures Reports(r, RunError(db, plan, plan.fields, ParentPage(db, plan, page)))
    ensures r.Ok? ==>
              var rows := ParentPage(db, plan, page);
              ShowsRows(db, plan, plan.fields, rows, r.value, S) && IDsOf(r.value) == AccountIDs(rows)
    decreases query.Repr, 3
  {
    query.Where(AccountIDIn(ids));
    ghost var narrowed := query.Plan();
    RestrictedRows(db, plan, narrowed, AccountIDIn(ids));
    RestrictedRun(db, plan, narrowed, AccountIDIn(ids));
    r, S := query.All(db);
    SameRunAndRows(db, narrowed, plan, plan.fields, ParentPage(db, plan, page), r, S);
    if r.Ok? {
      IDsScanned(db, plan, plan.fields, ParentPage(db, plan, page), r.value, S);
    }
  }

  lemma IDsScanned(db: Database, q: Plan, fields: seq<Column>, rows: seq<AccountRow>, nodes: seq<Account>,
                   S: set<Account>)
    requires ShowsRows(db, q, fields, rows, nodes, S)
    ensures IDsOf(nodes) == AccountIDs(rows)
  {
    KeysAreScanned(fields, q.proxy.Some?, q.parent.Some?);
    forall i | 0 <= i < |nodes|
      ensures nodes[i].id == rows[i].id
    {
      assert Shows(nodes[i], PageJoin(db, q, fields, rows, rows[i]), S);
    }
  }

  method LoadParent(db: Database, query: AccountQuery, nodes: seq<Account>, ghost page: seq<AccountRow>,
                    ghost plan: Plan)
    returns (err: Option<QueryError>, ghost S: set<Account>)
    requires KeysDistinct(db) && query.Valid() && query.Plan() == plan
    requires |nodes| == |page| && ParentsOf(nodes) == ParentIDs(page)
    requires forall n :: n in nodes ==> n.Parent == null && n !in query.Repr
    modifies query.Repr, (set n | n in nodes)`Parent
    ensures query.Valid() && query.Repr == old(query.Repr) && fresh(S)
    ensures query.Plan() == AfterParent(db, plan, page)
    ensures err == ParentError(db, plan, page)
    ensures err.None? ==>
              forall i :: 0 <= i < |nodes| ==>
                ParentIs(nodes[i].Parent, JoinedParent(db, plan, page, page[i]), S)
    decreases query.Repr, 4
  {
    var fks := seq(|nodes|, i requires 0 <= i < |nodes| => nodes[i].parentID);
    var ids, nodeids := IndexForeignKeys(nodes, fks);
    if |ids| == 0 {
      NoKeysRequested(fks);
      forall i | 0 <= i < |nodes|
        ensures page[i].parentID == None
      {
        assert ParentIDs(page)[i] == fks[i];
      }
      return None, {};
    }
    var r;
    r, S := QueryParents(db, query, ids, page, plan);
    if r.Err? {
      return Some(r.error), S;
    }
    err := AttachParents(db, nodes, nodeids, r.value, page, plan, S);
  }

  method AttachParents(db: Database, nodes: seq<Account>, nodeids: map<int, seq<Account>>, neighbors: seq<Account>,
                       ghost page: seq<AccountRow>, ghost plan: Plan, ghost S: set<Account>)
    returns (err: Option<QueryError>)
    requires |nodes| == |page| && ParentsOf(nodes) == ParentIDs(page)
    requires GroupedByKey(nodes, ParentsOf(nodes), nodeids)
    requires forall n :: n in nodes ==> n.Parent == null && n !in S
    requires ShowsRows(db, plan, plan.fields, ParentPage(db, plan, page), neighbors, S)
    requires IDsOf(neighbors) == AccountIDs(ParentPage(db, plan, page))
    modifies (set n | n in nodes)`Parent
    ensures err == None
    ensures forall i :: 0 <= i < |nodes| ==> ParentIs(nodes[i].Parent, JoinedParent(db, plan, page, page[i]), S)
  {
    ParentRowsWanted(db, plan, page);
    var bad := ScatterParents(nodes, nodeids, neighbors);
    err := if bad.None? then None else Some(UnexpectedNode);
    forall i | 0 <= i < |nodes|
      ensures ParentIs(nodes[i].Parent, JoinedParent(db, plan, page, page[i]), S)
    {
      assert ParentsOf(nodes)[i] == ParentIDs(page)[i];
      ParentJoin(db, plan, page, page[i], neighbors, S, nodes[i]);
    }
  }

  /** The neighbour query of `loadChildren`; a field selection gains the foreign key. */
  method QueryChildren(db: Database, query: AccountQuery, fks: seq<int>, ghost page: seq<AccountRow>, ghost plan: Plan)
    returns (r: Result<seq<Account>, QueryError>, ghost S: set<Account>)
    requires KeysDistinct(db) && query.Valid() && query.Plan() == plan
    requires fks == AccountIDs(page)
    modifies query.Repr
    ensures query.Valid() && query.Repr == old(query.Repr) && fresh(S)
    ensures query.Plan() == AfterChildren(db, plan, page)
    ensures Reports(r, ChildrenError(db, plan, page))
    ensures r.Ok? ==>
              var rows := ChildPage(db, plan, page);
              ShowsRows(db, plan, ChildFields(plan.fields), rows, r.value, S) && ParentsOf(r.value) == ParentIDs(rows)
    decreases query.Repr, 3
  {
    query.RestrictToChildrenOf(fks);
    ghost var narrowed := query.Plan();
    RestrictedRows(db, plan, narrowed, ParentIDIn(fks));
    RestrictedRun(db, plan, narrowed, ParentIDIn(fks));
    r, S := query.All(db);
    SameRunAndRows(db, narrowed, plan, ChildFields(plan.fields), ChildPage(db, plan, page), r, S);
    if r.Ok? {
      ChildKeysScanned(db, plan, ChildPage(db, plan, page), r.value, S);
    }
  }

  lemma SameRunAndRows(db: Database, p: Plan, q: Plan, fields: seq<Column>, rows: seq<AccountRow>,
                       r: Result<seq<Account>, QueryError>, S: set<Account>)
    requires p.proxy == q.proxy && p.parent == q.parent && p.children == q.children && p.refusal == q.refusal
    ensures RunError(db, p, fields, rows) == RunError(db, q, fields, rows)
    ensures r.Ok? && ShowsRows(db, p, fields, rows, r.value, S) ==> ShowsRows(db, q, fields, rows, r.value, S)
  {
    SameErrors(db, p, q, fields, rows);
    forall row: AccountRow {
      SameEdges(db, p, q, fields, rows, row);
    }
  }

  lemma ChildKeysScanned(db: Database, q: Plan, rows: seq<AccountRow>, nodes: seq<Account>, S: set<Account>)
    requires ShowsRows(db, q, ChildFields(q.fields), rows, nodes, S)
    ensures ParentsOf(nodes) == ParentIDs(rows)
  {
    KeysAreScanned(ChildFields(q.fields), q.proxy.Some?, q.parent.Some?);
    forall i | 0 <= i < |nodes|
      ensures nodes[i].parentID == rows[i].parentID
    {
      assert Shows(nodes[i], PageJoin(db, q, ChildFields(q.fields), rows, rows[i]), S);
    }
  }

  method LoadChildren(db: Database, query: AccountQuery, nodes: seq<Account>, ghost page: seq<AccountRow>,
                      ghost plan: Plan)
    returns (err: Option<QueryError>, ghost S: set<Account>)
    requires KeysDistinct(db) && query.Valid() && query.Plan() == plan
    requires |nodes| == |page| && IDsOf(nodes) == AccountIDs(page) && Distinct(AccountIDs(page))
    requires forall n :: n in nodes ==> n !in query.Repr
    modifies query.Repr, (set n | n in nodes)`Children
    ensures query.Valid() && query.Repr == old(query.Repr) && fresh(S)
    ensures query.Plan() == AfterChildren(db, plan, page)
    ensures err == ChildrenError(db, plan, page)
    ensures err.None? ==>
              forall i :: 0 <= i < |nodes| ==>
                ChildrenAre(nodes[i].Children, JoinedChildren(db, plan, page, page[i]), S)
    decreases query.Repr, 4
  {
    var fks := seq(|nodes|, i requires 0 <= i < |nodes| => nodes[i].id);
    var nodeids := IndexByID(nodes, fks);
    ClearChildren(nodes);
    var r;
    r, S := QueryChildren(db, query, fks, page, plan);
    if r.Err? {
      return Some(r.error), S;
    }
    err := AttachChildren(db, nodes, nodeids, r.value, page, plan, S);
  }

  method AttachChildren(db: Database, nodes: seq<Account>, nodeids: map<int, Account>, neighbors: seq<Account>,
                        ghost page: seq<AccountRow>, ghost plan: Plan, ghost S: set<Account>)
    returns (err: Option<QueryError>)
    requires |nodes| == |page| && IDsOf(nodes) == AccountIDs(page) && Distinct(AccountIDs(page))
    requires KeepsLast(nodes, nodeids)
    requires forall n :: n in nodes ==> n.Children == [] && n !in S
    requires ShowsRows(db, plan, ChildFields(plan.fields), ChildPage(db, plan, page), neighbors, S)
    requires ParentsOf(neighbors) == ParentIDs(ChildPage(db, plan, page))
    modifies (set n | n in nodes)`Children
    ensures err == None
    ensures forall i :: 0 <= i < |nodes| ==> ChildrenAre(nodes[i].Children, JoinedChildren(db, plan, page, page[i]), S)
  {
    ChildRowsHoused(db, plan, page);
    AllHousedByKeys(neighbors, IDsOf(nodes));
    var bad := ScatterChildren(nodes, nodeids, neighbors);
    err := if bad.None? then None else Some(UnexpectedNode);
    forall i | 0 <= i < |nodes|
      ensures ChildrenAre(nodes[i].Children, JoinedChildren(db, plan, page, page[i]), S)
    {
      assert IDsOf(nodes)[i] == AccountIDs(page)[i];
      LastOfDistinct(nodes, i);
      ChildrenJoin(db, plan, page, page[i], neighbors, S, nodes[i]);
    }
  }

  lemma AllHousedByKeys(neighbors: seq<Account>, ids: seq<int>)
    requires forall j :: 0 <= j < |neighbors| ==>
               ParentsOf(neighbors)[j].Some? && ParentsOf(neighbors)[j].value in ids
    ensures AllHoused(neighbors, ids)
  {
    forall j | 0 <= j < |neighbors|
      ensures HasHome(neighbors[j], ids)
    {
      assert ParentsOf(neighbors)[j] == neighbors[j].parentID;
    }
  }

  lemma LastOfDistinct(nodes: seq<Account>, i: nat)
    requires Distinct(IDsOf(nodes)) && i < |nodes|
    ensures LastWithItsID(nodes, nodes[i])
  {
    assert IDsOf(nodes)[i] == nodes[i].id;
    var at := LastIndex(IDsOf(nodes), nodes[i].id).value;
    if at < i {
      assert false;
    }
  }

  lemma ParentRowsWanted(db: Database, q: Plan, page: seq<AccountRow>)
    ensures Wanted(AccountIDs(ParentPage(db, q, page)), ParentIDs(page))
  {
    var rows := ParentPage(db, q, page);
    var ids := RequestedKeys(ParentIDs(page));
    forall j | 0 <= j < |rows|
      ensures Some(rows[j].id) in ParentIDs(page)
    {
      assert rows[j] in rows;
      ExtraHolds(rows[j], q.filters, AccountIDIn(ids), q.traversers);
    }
  }

  lemma ChildRowsHoused(db: Database, q: Plan, page: seq<AccountRow>)
    ensures forall j :: 0 <= j < |ChildPage(db, q, page)| ==>
              var fk := ParentIDs(ChildPage(db, q, page))[j];
              fk.Some? && fk.value in AccountIDs(page)
  {
    var rows := ChildPage(db, q, page);
    forall j | 0 <= j < |rows|
      ensures rows[j].parentID.Some? && rows[j].parentID.value in AccountIDs(page)
    {
      assert rows[j] in rows;
      ExtraHolds(rows[j], q.filters, ParentIDIn(AccountIDs(page)), q.traversers);
    }
  }

  method ClearChildren(nodes: seq<Account>)
    modifies (set n | n in nodes)`Children
    ensures forall n :: n in nodes ==> n.Children == []
  {
    for i := 0 to |nodes|
      invariant forall k :: 0 <= k < i ==> nodes[k].Children == []
    {
      nodes[i].Children := [];
    }
  }
}
