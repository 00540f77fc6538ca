// The eager loaders of backend/ent/account_query.go: hash indexes over a page of
// accounts and a scatter of the neighbours that were found back onto the page. These
// are the loops alone; the builders and the neighbour queries are in AccountQueries.dfy.
module EagerLoading {
  import opened Prelude
  import opened QueryPlans
  import opened Graph

  // ---------------------------------------------------------------- indexes

  /** The nodes holding foreign key `k`, in page order. */
  ghost function HoldersOf<N>(nodes: seq<N>, fks: seq<Option<int>>, k: int): seq<N>
    requires |fks| <= |nodes|
  {
    Pick(nodes, Positions(fks, Some(k)))
  }

  lemma HoldersSnoc<N>(nodes: seq<N>, fks: seq<Option<int>>, fk: Option<int>, k: int)
    requires |fks| < |nodes|
    ensures HoldersOf(nodes, fks + [fk], k)
            == HoldersOf(nodes, fks, k) + (if fk == Some(k) then [nodes[|fks|]] else [])
  {
  }

  lemma NoHolders<N>(nodes: seq<N>, fks: seq<Option<int>>, k: int)
    requires |fks| <= |nodes| && Some(k) !in fks
    ensures HoldersOf(nodes, fks, k) == []
  {
    NoPositions(fks, Some(k));
  }

  ghost predicate GroupedByKey<N>(nodes: seq<N>, fks: seq<Option<int>>, m: map<int, seq<N>>)
    requires |fks| <= |nodes|
  {
    (forall k :: k in m <==> Some(k) in fks) &&
    forall k :: k in m ==> m[k] == HoldersOf(nodes, fks, k)
  }

  /** First loop of a many-to-one loader: the keys to request and who asked for each. */
  method IndexForeignKeys<N>(nodes: seq<N>, fks: seq<Option<int>>)
    returns (ids: seq<int>, nodeids: map<int, seq<N>>)
    requires |fks| == |nodes|
    ensures ids == RequestedKeys(fks)
    ensures GroupedByKey(nodes, fks, nodeids)
  {
    ids, nodeids := [], map[];
    for i := 0 to |nodes|
      invariant ids == RequestedKeys(fks[..i])
      invariant GroupedByKey(nodes, fks[..i], nodeids)
    {
      assert fks[..i + 1] == fks[..i] + [fks[i]] && fks[..i + 1][..i] == fks[..i];
      forall k: int {
        HoldersSnoc(nodes, fks[..i], fks[i], k);
      }
      if fks[i] == None {
        continue;
      }
      var fk := fks[i].value;
      if fk !in nodeids {
        NoHolders(nodes, fks[..i], fk);
        ids := ids + [fk];
        nodeids := nodeids[fk := []];
      }
      nodeids := nodeids[fk := nodeids[fk] + [nodes[i]]];
    }
    assert fks[..|nodes|] == fks;
  }

  /** First loop of a one-to-many loader: the last node of the page wins an ID. */
  method IndexByID<N>(nodes: seq<N>, ids: seq<int>) returns (nodeids: map<int, N>)
    requires |ids| == |nodes|
    ensures forall k :: k in nodeids <==> k in ids
    ensures forall k :: k in nodeids ==> nodeids[k] == nodes[LastIndex(ids, k).value]
  {
    nodeids := map[];
    for i := 0 to |nodes|
      invariant forall k :: k in nodeids <==> k in ids[..i]
      invariant forall k :: k in nodeids ==> nodeids[k] == nodes[LastIndex(ids[..i], k).value]
    {
      assert ids[..i + 1][..i] == ids[..i];
      nodeids := nodeids[ids[i] := nodes[i]];
    }
    assert ids[..|nodes|] == ids;
  }

  // ---------------------------------------------------------------- scatter

  /** The last neighbour with the wanted key, or what was there before. */
  ghost function Target<N>(ids: seq<int>, neighbors: seq<N>, fk: Option<int>, otherwise: N): N
    requires |ids| == |neighbors|
  {
    var at := MatchKey(ids, fk);
    if at.None? then otherwise else neighbors[at.value]
  }

  lemma TargetSnoc<N>(ids: seq<int>, neighbors: seq<N>, id: int, n: N, fk: Option<int>, otherwise: N)
    requires |ids| == |neighbors|
    ensures Target(ids + [id], neighbors + [n], fk, otherwise)
            == if fk == Some(id) then n else Target(ids, neighbors, fk, otherwise)
  {
  }

  ghost predicate Wanted(ids: seq<int>, fks: seq<Option<int>>) {
    forall j :: 0 <= j < |ids| ==> Some(ids[j]) in fks
  }

  /** A node waits under key `k` exactly when `k` is its foreign key. */
  lemma Holders<N>(nodes: seq<N>, fks: seq<Option<int>>, k: int)
    requires |fks| == |nodes|
    ensures forall m :: m in HoldersOf(nodes, fks, k) <==>
              exists i :: 0 <= i < |nodes| && nodes[i] == m && fks[i] == Some(k)
  {
    var at := Positions(fks, Some(k));
    PositionsExact(fks, Some(k));
    forall i | 0 <= i < |nodes| && fks[i] == Some(k)
      ensures nodes[i] in HoldersOf(nodes, fks, k)
    {
      var j :| 0 <= j < |at| && at[j] == i;
      assert HoldersOf(nodes, fks, k)[j] == nodes[i];
    }
  }

  lemma ParentAskers(nodes: seq<Account>, k: int)
    ensures forall m :: m in HoldersOf(nodes, ParentsOf(nodes), k) <==> m in nodes && m.parentID == Some(k)
  {
    Holders(nodes, ParentsOf(nodes), k);
  }

  lemma ProxyAskers(nodes: seq<Account>, k: int)
    ensures forall m :: m in HoldersOf(nodes, ProxyKeysOf(nodes), k) <==> m in nodes && m.proxyID == Some(k)
  {
    Holders(nodes, ProxyKeysOf(nodes), k);
  }

  method AssignParent(waiting: seq<Account>, n: Account)
    modifies (set m | m in waiting)`Parent
    ensures forall m :: m in waiting ==> m.Parent == n
  {
    for i := 0 to |waiting|
      invariant forall k :: 0 <= k < i ==> waiting[k].Parent == n
    {
      waiting[i].Parent := n;
    }
  }

  /**
   * Second loop of `loadParent`. `bad` is the first neighbour nobody asked for, at
   * which the loader gives up with the earlier ones already assigned.
   */
  method ScatterParents(nodes: seq<Account>, nodeids: map<int, seq<Account>>, neighbors: seq<Account>)
    returns (bad: Option<nat>)
    requires GroupedByKey(nodes, ParentsOf(nodes), nodeids)
    modifies (set n | n in nodes)`Parent
    ensures bad.None? <==> Wanted(IDsOf(neighbors), ParentsOf(nodes))
    ensures bad.Some? ==> bad.value < |neighbors| && Some(neighbors[bad.value].id) !in ParentsOf(nodes)
    ensures var done := if bad.None? then neighbors else neighbors[..bad.value];
            forall n :: n in nodes ==> n.Parent == Target(IDsOf(done), done, n.parentID, old(n.Parent))
  {
    for j := 0 to |neighbors|
      invariant Wanted(IDsOf(neighbors[..j]), ParentsOf(nodes))
      invariant forall n :: n in nodes ==>
        n.Parent == Target(IDsOf(neighbors[..j]), neighbors[..j], n.parentID, old(n.Parent))
    {
      var n := neighbors[j];
      if n.id !in nodeids {
        assert IDsOf(neighbors)[j] == n.id;
        return Some(j);
      }
      var waiting := nodeids[n.id];
      ParentAskers(nodes, n.id);
      AssignParent(waiting, n);
      TakeSnoc(neighbors, j);
      IDsSnoc(neighbors[..j], n);
      forall m | m in nodes
        ensures m.Parent == Target(IDsOf(neighbors[..j + 1]), neighbors[..j + 1], m.parentID, old(m.Parent))
      {
        TargetSnoc(IDsOf(neighbors[..j]), neighbors[..j], n.id, n, m.parentID, old(m.Parent));
      }
    }
    assert neighbors[..|neighbors|] == neighbors;
    bad := None;
  }

  method AssignProxy(waiting: seq<Account>, n: Proxy)
    modifies (set m | m in waiting)`Proxy
    ensures forall m :: m in waiting ==> m.Proxy == n
  {
    for i := 0 to |waiting|
      invariant forall k :: 0 <= k < i ==> waiting[k].Proxy == n
    {
      waiting[i].Proxy := n;
    }
  }

  /** Second loop of `loadProxy`. */
  method ScatterProxies(nodes: seq<Account>, nodeids: map<int, seq<Account>>, neighbors: seq<Proxy>)
    returns (bad: Option<nat>)
    requires GroupedByKey(nodes, ProxyKeysOf(nodes), nodeids)
    modifies (set n | n in nodes)`Proxy
    ensures bad.None? <==> Wanted(ProxyIDsOf(neighbors), ProxyKeysOf(nodes))
    ensures bad.Some? ==> bad.value < |neighbors| && Some(neighbors[bad.value].id) !in ProxyKeysOf(nodes)
    ensures var done := if bad.None? then neighbors else neighbors[..bad.value];
            forall n :: n in nodes ==> n.Proxy == Target(ProxyIDsOf(done), done, n.proxyID, old(n.Proxy))
  {
    for j := 0 to |neighbors|
      invariant Wanted(ProxyIDsOf(neighbors[..j]), ProxyKeysOf(nodes))
      invariant forall n :: n in nodes ==>
        n.Proxy == Target(ProxyIDsOf(neighbors[..j]), neighbors[..j], n.proxyID, old(n.Proxy))
    {
      var n := neighbors[j];
      if n.id !in nodeids {
        assert ProxyIDsOf(neighbors)[j] == n.id;
        return Some(j);
      }
      var waiting := nodeids[n.id];
      ProxyAskers(nodes, n.id);
      AssignProxy(waiting, n);
      TakeSnoc(neighbors, j);
      ProxyIDsSnoc(neighbors[..j], n);
      forall m | m in nodes
        ensures m.Proxy == Target(ProxyIDsOf(neighbors[..j + 1]), neighbors[..j + 1], m.proxyID, old(m.Proxy))
      {
        TargetSnoc(ProxyIDsOf(neighbors[..j]), neighbors[..j], n.id, n, m.proxyID, old(m.Proxy));
      }
    }
    assert neighbors[..|neighbors|] == neighbors;
    bad := None;
  }

  /** The neighbours that name account `id` as their parent, in the order returned. */
  ghost function ChildrenFor(neighbors: seq<Account>, id: int): seq<Account> {
    Pick(neighbors, Positions(ParentsOf(neighbors), Some(id)))
  }

  lemma ChildrenForSnoc(neighbors: seq<Account>, n: Account, id: int)
    ensures ChildrenFor(neighbors + [n], id)
            == ChildrenFor(neighbors, id) + (if n.parentID == Some(id) then [n] else [])
  {
    assert ParentsOf(neighbors + [n]) == ParentsOf(neighbors) + [n.parentID];
    PositionsSnoc(ParentsOf(neighbors), n.parentID, Some(id));
  }

  /** `n` is the node a map filled in page order ends up holding for its ID. */
  ghost predicate LastWithItsID(nodes: seq<Account>, n: Account) {
    n.id in IDsOf(nodes) && nodes[LastIndex(IDsOf(nodes), n.id).value] == n
  }

  ghost predicate KeepsLast(nodes: seq<Account>, nodeids: map<int, Account>) {
    (forall k :: k in nodeids <==> k in IDsOf(nodes)) &&
    forall k :: k in nodeids ==> nodeids[k] == nodes[LastIndex(IDsOf(nodes), k).value]
  }

  /** What the page node `n` receives from the neighbours scattered so far. */
  ghost function Gained(nodes: seq<Account>, neighbors: seq<Account>, n: Account): seq<Account> {
    if LastWithItsID(nodes, n) then ChildrenFor(neighbors, n.id) else []
  }

  lemma GainedSnoc(nodes: seq<Account>, nodeids: map<int, Account>, neighbors: seq<Account>, n: Account,
                   m: Account, was: seq<Account>)
    requires KeepsLast(nodes, nodeids) && HasHome(n, IDsOf(nodes))
    ensures was + Gained(nodes, neighbors + [n], m)
            == (was + Gained(nodes, neighbors, m)) + (if m == nodeids[n.parentID.value] then [n] else [])
  {
    ChildrenForSnoc(neighbors, n, m.id);
  }

  ghost predicate AllHoused(neighbors: seq<Account>, ids: seq<int>) {
    forall j :: 0 <= j < |neighbors| ==> HasHome(neighbors[j], ids)
  }

  ghost predicate HasHome(n: Account, ids: seq<int>) {
    n.parentID.Some? && n.parentID.value in ids
  }

  /**
   * Second loop of `loadChildren`. A neighbour without a parent key, or whose parent
   * is not on the page, stops the loader; until then every neighbour is appended to
   * the node the index holds for its parent.
   */
  method ScatterChildren(nodes: seq<Account>, nodeids: map<int, Account>, neighbors: seq<Account>)
    returns (bad: Option<nat>)
    requires KeepsLast(nodes, nodeids)
    modifies (set n | n in nodes)`Children
    ensures bad.None? <==> AllHoused(neighbors, IDsOf(nodes))
    ensures bad.Some? ==> bad.value < |neighbors| && !HasHome(neighbors[bad.value], IDsOf(nodes))
    ensures var done := if bad.None? then neighbors else neighbors[..bad.value];
            forall n :: n in nodes ==> n.Children == old(n.Children) + Gained(nodes, done, n)
  {
    for j := 0 to |neighbors|
      invariant AllHoused(neighbors[..j], IDsOf(nodes))
      invariant forall n :: n in nodes ==> n.Children == old(n.Children) + Gained(nodes, neighbors[..j], n)
    {
      var n := neighbors[j];
      if n.parentID == None {
        assert !HasHome(n, IDsOf(nodes));
        return Some(j);
      }
      var fk := n.parentID.value;
      if fk !in nodeids {
        assert !HasHome(n, IDsOf(nodes));
        return Some(j);
      }
      var node := nodeids[fk];
      node.Children := node.Children + [n];
      TakeSnoc(neighbors, j);
      forall m | m in nodes
        ensures m.Children == old(m.Children) + Gained(nodes, neighbors[..j + 1], m)
      {
        GainedSnoc(nodes, nodeids, neighbors[..j], n, m, old(m.Children));
      }
    }
    assert neighbors[..|neighbors|] == neighbors;
    bad := None;
  }
}
