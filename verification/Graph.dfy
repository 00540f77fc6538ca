// The entities of backend/ent/account.go and backend/ent/accountgroup.go as heap
// objects: scanned fields are fixed when a row is assigned, edges are filled in
// later by the eager loaders.
module Graph {
  import opened Prelude
  import opened QueryPlans

  datatype EdgeError = NotFound | NotLoaded

  class Proxy {
    const id: int

    constructor (row: ProxyRow)
      ensures id == row.id
    {
      id := row.id;
    }
  }

  class Group {
    const id: int

    constructor (id: int)
      ensures this.id == id
    {
      this.id := id;
    }
  }

  class AccountGroup {
    const accountID: int
    const groupID: int
    var Group: Group?

    constructor (accountID: int, groupID: int)
      ensures this.accountID == accountID && this.groupID == groupID && Group == null
    {
      this.accountID, this.groupID := accountID, groupID;
      Group := null;
    }
  }

  class Account {
    const id: int
    const proxyID: Option<int>
    const parentID: Option<int>
    const loaded: LoadedTypes

    var Proxy: Proxy?
    var Parent: Account?
    var Children: seq<Account>
    var Groups: seq<Group>
    var AccountGroups: seq<AccountGroup>

    constructor (scan: Scan, loaded: LoadedTypes)
      ensures id == scan.id && proxyID == scan.proxyID && parentID == scan.parentID && this.loaded == loaded
      ensures Proxy == null && Parent == null && Children == [] && Groups == [] && AccountGroups == []
    {
      id, proxyID, parentID := scan.id, scan.proxyID, scan.parentID;
      this.loaded := loaded;
      Proxy, Parent, Children, Groups, AccountGroups := null, null, [], [], [];
    }

    function ProxyOrErr(): Result<Proxy, EdgeError>
      reads this
    {
      if Proxy != null then Ok(Proxy) else if loaded.proxy then Err(NotFound) else Err(NotLoaded)
    }

    function ParentOrErr(): Result<Account, EdgeError>
      reads this
    {
      if Parent != null then Ok(Parent) else if loaded.parent then Err(NotFound) else Err(NotLoaded)
    }

    function ChildrenOrErr(): Result<seq<Account>, EdgeError>
      reads this
    {
      if loaded.children then Ok(Children) else Err(NotLoaded)
    }
  }

  ghost function IDsOf(nodes: seq<Account>): seq<int> {
    seq(|nodes|, i requires 0 <= i < |nodes| => nodes[i].id)
  }

  ghost function ParentsOf(nodes: seq<Account>): seq<Option<int>> {
    seq(|nodes|, i requires 0 <= i < |nodes| => nodes[i].parentID)
  }

  ghost function ProxyKeysOf(nodes: seq<Account>): seq<Option<int>> {
    seq(|nodes|, i requires 0 <= i < |nodes| => nodes[i].proxyID)
  }

  ghost function ProxyIDsOf(nodes: seq<Proxy>): seq<int> {
    seq(|nodes|, i requires 0 <= i < |nodes| => nodes[i].id)
  }

  lemma IDsSnoc(nodes: seq<Account>, n: Account)
    ensures IDsOf(nodes + [n]) == IDsOf(nodes) + [n.id]
  {
  }

  lemma ProxyIDsSnoc(nodes: seq<Proxy>, n: Proxy)
    ensures ProxyIDsOf(nodes + [n]) == ProxyIDsOf(nodes) + [n.id]
  {
  }

  /** The heap nodes reachable from `n`, all inside `S`, spell out the tree `t`. */
  ghost predicate Shows(n: Account, t: Tree, S: set<Account>)
    reads S
    decreases t
  {
    n in S && n.id == t.scan.id && n.proxyID == t.scan.proxyID && n.parentID == t.scan.parentID &&
    n.loaded == t.loaded &&
    (match t.proxy
     case None => n.Proxy == null
     case Some(p) => n.Proxy != null && n.Proxy.id == p.id) &&
    (match t.parent
     case None => n.Parent == null
     case Some(p) => n.Parent != null && Shows(n.Parent, p, S)) &&
    |n.Children| == |t.children| &&
    forall i :: 0 <= i < |t.children| ==> Shows(n.Children[i], t.children[i], S)
  }

  lemma {:induction false} ShowsMonotone(n: Account, t: Tree, S: set<Account>, S': set<Account>)
    requires Shows(n, t, S) && S <= S'
    ensures Shows(n, t, S')
    decreases t
  {
    if t.parent.Some? {
      ShowsMonotone(n.Parent, t.parent.value, S, S');
    }
    forall i | 0 <= i < |t.children|
      ensures Shows(n.Children[i], t.children[i], S')
    {
      ShowsMonotone(n.Children[i], t.children[i], S, S');
    }
  }
}
