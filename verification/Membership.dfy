// The many-to-many edge between accounts and groups, loaded two ways: directly
// through the join table (`loadGroups` of backend/ent/account_query.go), or as
// membership entities (`loadAccountGroups`) whose own `Group` edge is loaded next
// (`loadGroup` of backend/ent/accountgroup_query.go).
module Membership {
  import opened Prelude
  import opened QueryPlans
  import opened Graph
  import opened EagerLoading

  // One row of the joined query: the account key prepended by the loader, then the group.
  datatype JoinRow = JoinRow(accountID: int, groupID: int)

  // ------------------------------------------------------ specification

  /** The groups of the answer, each once, in order of first appearance. */
  function FirstSeen(rows: seq<JoinRow>): seq<int> {
    if rows == [] then []
    else
      var before, g := FirstSeen(rows[..|rows| - 1]), rows[|rows| - 1].groupID;
      if g in before then before else before + [g]
  }

  /** The groups linked to account `a`, among `ids` and in their order. */
  function KeepLinked(ids: seq<int>, rows: seq<JoinRow>, a: int): seq<int> {
    if ids == [] then []
    else
      KeepLinked(ids[..|ids| - 1], rows, a)
      + (if JoinRow(a, ids[|ids| - 1]) in rows then [ids[|ids| - 1]] else [])
  }

  /** The group IDs `loadGroups` leaves on account `a`. */
  function GroupIDsFor(rows: seq<JoinRow>, a: int): seq<int> {
    KeepLinked(FirstSeen(rows), rows, a)
  }

  ghost predicate Appears(rows: seq<JoinRow>, g: int) {
    exists i :: 0 <= i < |rows| && rows[i].groupID == g
  }

  /** The row at which group `g` first appears. */
  ghost function FirstRow(rows: seq<JoinRow>, g: int): (r: nat)
    requires Appears(rows, g)
    ensures r < |rows| && rows[r].groupID == g
    ensures forall i :: 0 <= i < r ==> rows[i].groupID != g
  {
    var init := rows[..|rows| - 1];
    if Appears(init, g) then FirstRow(init, g) else |rows| - 1
  }

  /** `ids` lists groups of the answer by strictly increasing first appearance. */
  ghost predicate ByFirstAppearance(ids: seq<int>, rows: seq<JoinRow>) {
    (forall i :: 0 <= i < |ids| ==> Appears(rows, ids[i])) &&
    forall i, j :: 0 <= i < j < |ids| ==> FirstRow(rows, ids[i]) < FirstRow(rows, ids[j])
  }

  lemma AppearsSnoc(rows: seq<JoinRow>, g: int)
    requires rows != []
    ensures var init := rows[..|rows| - 1];
            (Appears(rows, g) <==> Appears(init, g) || g == rows[|rows| - 1].groupID) &&
            (Appears(init, g) ==> FirstRow(rows, g) == FirstRow(init, g))
  {
    var init := rows[..|rows| - 1];
    if Appears(init, g) {
      assert rows[FirstRow(init, g)].groupID == g;
    }
  }

  lemma {:induction false} FirstSeenExact(rows: seq<JoinRow>, g: int)
    ensures g in FirstSeen(rows) <==> Appears(rows, g)
  {
    if rows != [] {
      FirstSeenExact(rows[..|rows| - 1], g);
      AppearsSnoc(rows, g);
    }
  }

  lemma {:induction false} FirstSeenOrdered(rows: seq<JoinRow>)
    ensures ByFirstAppearance(FirstSeen(rows), rows)
  {
    if rows != [] {
      var init, g := rows[..|rows| - 1], rows[|rows| - 1].groupID;
      FirstSeenOrdered(init);
      FirstSeenExact(init, g);
      AppearsSnoc(rows, g);
      forall h | Appears(init, h)
        ensures Appears(rows, h) && FirstRow(rows, h) == FirstRow(init, h) < |init|
      {
        AppearsSnoc(rows, h);
      }
    }
  }

  lemma {:induction false} KeepLinkedOrdered(ids: seq<int>, rows: seq<JoinRow>, a: int)
    requires ByFirstAppearance(ids, rows)
    ensures ByFirstAppearance(KeepLinked(ids, rows, a), rows)
    ensures forall g :: g in KeepLinked(ids, rows, a) <==> g in ids && JoinRow(a, g) in rows
  {
    if ids != [] {
      var init, last := ids[..|ids| - 1], ids[|ids| - 1];
      KeepLinkedOrdered(init, rows, a);
      assert ids == init + [last];
      forall g | g in KeepLinked(init, rows, a)
        ensures FirstRow(rows, g) < FirstRow(rows, last)
      {
        var i :| 0 <= i < |init| && init[i] == g;
      }
    }
  }

  /**
   * Main result: for any answer, with repeats and in any order, account `a` gets exactly
   * the groups linked to it, each once, in the order the groups first appear.
   */
  lemma JoinExact(rows: seq<JoinRow>, a: int)
    ensures forall g :: g in GroupIDsFor(rows, a) <==> JoinRow(a, g) in rows
    ensures Distinct(GroupIDsFor(rows, a))
    ensures ByFirstAppearance(GroupIDsFor(rows, a), rows)
  {
    FirstSeenOrdered(rows);
    KeepLinkedOrdered(FirstSeen(rows), rows, a);
    forall g | JoinRow(a, g) in rows
      ensures g in FirstSeen(rows)
    {
      FirstSeenExact(rows, g);
      var i :| 0 <= i < |rows| && rows[i] == JoinRow(a, g);
      assert rows[i].groupID == g;
    }
  }

  // ----------------------------------------------------- loadGroups

  ghost function GroupIDs(groups: seq<Group>): seq<int> {
    seq(|groups|, i requires 0 <= i < |groups| => groups[i].id)
  }

  /** The nodes of the accounts that some row links to group `g`. */
  ghost function Askers(rows: seq<JoinRow>, byID: map<int, Account>, g: int): set<Account> {
    set i | 0 <= i < |rows| && rows[i].groupID == g && rows[i].accountID in byID :: byID[rows[i].accountID]
  }

  lemma AskersSnoc(rows: seq<JoinRow>, row: JoinRow, byID: map<int, Account>, g: int)
    requires row.accountID in byID
    ensures Askers(rows + [row], byID, g)
         == Askers(rows, byID, g) + (if row.groupID == g then {byID[row.accountID]} else {})
  {
    var before, after := Askers(rows, byID, g), Askers(rows + [row], byID, g);
    forall m | m in before
      ensures m in after
    {
      var i :| 0 <= i < |rows| && rows[i].groupID == g && rows[i].accountID in byID && byID[rows[i].accountID] == m;
      assert (rows + [row])[i] == rows[i];
    }
    assert (rows + [row])[|rows|] == row;
  }

  /** `nids` collects, per group, the nodes of the accounts linked to it. */
  ghost predicate Collects(nids: map<int, set<Account>>, byID: map<int, Account>, rows: seq<JoinRow>) {
    (forall g :: g in nids <==> Appears(rows, g)) &&
    forall g :: g in nids ==> nids[g] == Askers(rows, byID, g)
  }

  lemma CollectsSnoc(nids: map<int, set<Account>>, byID: map<int, Account>, rows: seq<JoinRow>, row: JoinRow)
    requires Collects(nids, byID, rows) && row.accountID in byID
    ensures var had := if row.groupID in nids then nids[row.groupID] else {};
            Collects(nids[row.groupID := had + {byID[row.accountID]}], byID, rows + [row])
  {
    var had := if row.groupID in nids then nids[row.groupID] else {};
    var nids' := nids[row.groupID := had + {byID[row.accountID]}];
    forall g
      ensures g in nids' <==> Appears(rows + [row], g)
    {
      if Appears(rows, g) {
        assert (rows + [row])[FirstRow(rows, g)].groupID == g;
      }
      assert (rows + [row])[|rows|] == row;
    }
    forall g | g in nids'
      ensures nids'[g] == Askers(rows + [row], byID, g)
    {
      AskersSnoc(rows, row, byID, g);
    }
  }

  /**
   * The intercepted row assignment of `loadGroups`: a group becomes an entity only the
   * first time it appears, every row records which account asked for it.
   */
  method CollectRows(rows: seq<JoinRow>, byID: map<int, Account>)
    returns (nids: map<int, set<Account>>, neighbors: seq<Group>)
    requires forall i :: 0 <= i < |rows| ==> rows[i].accountID in byID
    ensures Collects(nids, byID, rows)
    ensures GroupIDs(neighbors) == FirstSeen(rows)
  {
    nids, neighbors := map[], [];
    for i := 0 to |rows|
      invariant Collects(nids, byID, rows[..i])
      invariant GroupIDs(neighbors) == FirstSeen(rows[..i])
    {
      var outValue, inValue := rows[i].accountID, rows[i].groupID;
      FirstSeenExact(rows[..i], inValue);
      TakeSnoc(rows, i);
      assert rows[..i + 1][..i] == rows[..i];
      CollectsSnoc(nids, byID, rows[..i], rows[i]);
      if inValue !in nids {
        assert {} + {byID[outValue]} == {byID[outValue]};
        nids := nids[inValue := {byID[outValue]}];
        var node := new Group(inValue);
        neighbors := neighbors + [node];
      } else {
        nids := nids[inValue := nids[inValue] + {byID[outValue]}];
      }
    }
    assert rows[..|rows|] == rows;
  }

  lemma GroupIDsSnoc(groups: seq<Group>, g: Group)
    ensures GroupIDs(groups + [g]) == GroupIDs(groups) + [g.id]
  {
  }

  /** The neighbours that the index says node `n` asked for. */
  ghost function Received(neighbors: seq<Group>, nids: map<int, set<Account>>, n: Account): seq<Group> {
    if neighbors == [] then []
    else
      var g := neighbors[|neighbors| - 1];
      Received(neighbors[..|neighbors| - 1], nids, n) + (if g.id in nids && n in nids[g.id] then [g] else [])
  }

  /** The range loop over a Go set: each member once, in an order of the runtime's choosing. */
  method AppendToAll(todo: set<Account>, g: Group)
    modifies todo`Groups
    ensures forall m :: m in todo ==> m.Groups == old(m.Groups) + [g]
  {
    var rest := todo;
    while rest != {}
      invariant rest <= todo
      invariant forall m :: m in todo ==> m.Groups == old(m.Groups) + (if m in rest then [] else [g])
      decreases rest
    {
      var kn :| kn in rest;
      kn.Groups := kn.Groups + [g];
      rest := rest - {kn};
    }
  }

  ghost predicate Expected(neighbors: seq<Group>, nids: map<int, set<Account>>) {
    forall j :: 0 <= j < |neighbors| ==> neighbors[j].id in nids
  }

  method ScatterGroups(ghost nodes: set<Account>, nids: map<int, set<Account>>, neighbors: seq<Group>)
    returns (bad: Option<nat>)
    requires forall g :: g in nids ==> nids[g] <= nodes
    modifies nodes`Groups
    ensures bad.None? <==> Expected(neighbors, nids)
    ensures bad.Some? ==> bad.value < |neighbors| && neighbors[bad.value].id !in nids
    ensures var done := if bad.None? then neighbors else neighbors[..bad.value];
            forall n :: n in nodes ==> n.Groups == old(n.Groups) + Received(done, nids, n)
  {
    for j := 0 to |neighbors|
      invariant Expected(neighbors[..j], nids)
      invariant forall n :: n in nodes ==> n.Groups == old(n.Groups) + Received(neighbors[..j], nids, n)
    {
      var n := neighbors[j];
      if n.id !in nids {
        return Some(j);
      }
      AppendToAll(nids[n.id], n);
      assert neighbors[..j + 1][..j] == neighbors[..j];
    }
    assert neighbors[..|neighbors|] == neighbors;
    bad := None;
  }

  lemma {:induction false} ReceivedIDs(neighbors: seq<Group>, nids: map<int, set<Account>>, byID: map<int, Account>,
                                       rows: seq<JoinRow>, nodes: seq<Account>, n: Account)
    requires Collects(nids, byID, rows) && KeepsLast(nodes, byID)
    requires forall i :: 0 <= i < |rows| ==> rows[i].accountID in byID
    ensures GroupIDs(Received(neighbors, nids, n))
         == if LastWithItsID(nodes, n) then KeepLinked(GroupIDs(neighbors), rows, n.id) else []
  {
    if neighbors != [] {
      var init, g := neighbors[..|neighbors| - 1], neighbors[|neighbors| - 1];
      ReceivedIDs(init, nids, byID, rows, nodes, n);
      GroupIDsSnoc(Received(init, nids, n), g);
      AskedFor(nids, byID, rows, nodes, n, g.id);
      assert GroupIDs(neighbors)[..|init|] == GroupIDs(init);
    }
  }

  lemma AskedFor(nids: map<int, set<Account>>, byID: map<int, Account>,
                 rows: seq<JoinRow>, nodes: seq<Account>, n: Account, g: int)
    requires Collects(nids, byID, rows) && KeepsLast(nodes, byID)
    requires forall i :: 0 <= i < |rows| ==> rows[i].accountID in byID
    ensures g in nids && n in nids[g] <==> LastWithItsID(nodes, n) && JoinRow(n.id, g) in rows
  {
  }

  method ClearGroups(nodes: seq<Account>)
    modifies (set n | n in nodes)`Groups
    ensures forall n :: n in nodes ==> n.Groups == []
  {
    for i := 0 to |nodes|
      invariant forall k :: 0 <= k < i ==> nodes[k].Groups == []
    {
      nodes[i].Groups := [];
    }
  }

  /**
   * `loadGroups`, given the rows its query returned. The query asks only for accounts of
   * the page; nothing is assumed about the order of rows, their repeats, or the order in
   * which the sets of askers are walked.
   */
  method LoadGroups(nodes: seq<Account>, rows: seq<JoinRow>) returns (ok: bool)
    requires forall i :: 0 <= i < |rows| ==> rows[i].accountID in IDsOf(nodes)
    modifies (set n | n in nodes)`Groups
    ensures ok
    ensures forall n :: n in nodes ==>
              GroupIDs(n.Groups) == if LastWithItsID(nodes, n) then GroupIDsFor(rows, n.id) else []
  {
    var edgeIDs := seq(|nodes|, i requires 0 <= i < |nodes| => nodes[i].id);
    var byID := IndexByID(nodes, edgeIDs);
    ClearGroups(nodes);
    var nids, neighbors := CollectRows(rows, byID);
    ok := AttachGroups(nodes, rows, byID, nids, neighbors);
  }

  method AttachGroups(nodes: seq<Account>, ghost rows: seq<JoinRow>, ghost byID: map<int, Account>,
                      nids: map<int, set<Account>>, neighbors: seq<Group>)
    returns (ok: bool)
    requires Collects(nids, byID, rows) && KeepsLast(nodes, byID) && GroupIDs(neighbors) == FirstSeen(rows)
    requires forall i :: 0 <= i < |rows| ==> rows[i].accountID in byID
    requires forall n :: n in nodes ==> n.Groups == []
    modifies (set n | n in nodes)`Groups
    ensures ok
    ensures forall n :: n in nodes ==>
              GroupIDs(n.Groups) == if LastWithItsID(nodes, n) then GroupIDsFor(rows, n.id) else []
  {
    AllExpected(nids, byID, rows, neighbors);
    AskersOnPage(nids, byID, rows, nodes);
    var bad := ScatterGroups((set n | n in nodes), nids, neighbors);
    ok := bad.None?;
    forall n | n in nodes
      ensures GroupIDs(n.Groups) == if LastWithItsID(nodes, n) then GroupIDsFor(rows, n.id) else []
    {
      assert n.Groups == Received(neighbors, nids, n);
      ReceivedIDs(neighbors, nids, byID, rows, nodes, n);
    }
  }

  lemma AllExpected(nids: map<int, set<Account>>, byID: map<int, Account>, rows: seq<JoinRow>, neighbors: seq<Group>)
    requires Collects(nids, byID, rows) && GroupIDs(neighbors) == FirstSeen(rows)
    ensures Expected(neighbors, nids)
  {
    forall j | 0 <= j < |neighbors|
      ensures neighbors[j].id in nids
    {
      assert GroupIDs(neighbors)[j] in FirstSeen(rows);
      FirstSeenExact(rows, neighbors[j].id);
    }
  }

  lemma AskersOnPage(nids: map<int, set<Account>>, byID: map<int, Account>, rows: seq<JoinRow>, nodes: seq<Account>)
    requires Collects(nids, byID, rows) && KeepsLast(nodes, byID)
    ensures forall g :: g in nids ==> nids[g] <= set n | n in nodes
  {
  }

  // ------------------------------------- loadAccountGroups, then loadGroup

  ghost function GroupKeysOf(ags: seq<AccountGroup>): seq<Option<int>> {
    seq(|ags|, i requires 0 <= i < |ags| => Some(ags[i].groupID))
  }

  ghost function MemberRowsOf(ags: seq<AccountGroup>): seq<JoinRow> {
    seq(|ags|, i requires 0 <= i < |ags| => JoinRow(ags[i].accountID, ags[i].groupID))
  }

  method AssignGroup(waiting: seq<AccountGroup>, g: Group)
    modifies (set m | m in waiting)`Group
    ensures forall m :: m in waiting ==> m.Group == g
  {
    for i := 0 to |waiting|
      invariant forall k :: 0 <= k < i ==> waiting[k].Group == g
    {
      waiting[i].Group := g;
    }
  }

  lemma GroupAskers(ags: seq<AccountGroup>, k: int)
    ensures forall m :: m in HoldersOf(ags, GroupKeysOf(ags), k) <==> m in ags && m.groupID == k
  {
    Holders(ags, GroupKeysOf(ags), k);
  }

  ghost predicate GroupIs(g: Group?, groupID: int, found: seq<int>) {
    if groupID in found then g != null && g.id == groupID else g == null
  }

  /** `loadGroup` of the membership query, given the group rows its query returned. */
  method LoadGroup(ags: seq<AccountGroup>, rows: seq<int>) returns (ok: bool)
    requires forall ag :: ag in ags ==> ag.Group == null
    requires forall k :: k in rows ==> Some(k) in GroupKeysOf(ags)
    modifies (set ag | ag in ags)`Group
    ensures ok
    ensures forall ag :: ag in ags ==> GroupIs(ag.Group, ag.groupID, rows)
  {
    var fks := seq(|ags|, i requires 0 <= i < |ags| => Some(ags[i].groupID));
    var ids, nodeids := IndexForeignKeys(ags, fks);
    if |ids| == 0 {
      NoKeysRequested(fks);
      assert forall i :: 0 <= i < |ags| ==> fks[i] == None;
      return true;
    }
    for j := 0 to |rows|
      invariant forall ag :: ag in ags ==> GroupIs(ag.Group, ag.groupID, rows[..j])
    {
      var n := new Group(rows[j]);
      if n.id !in nodeids {
        return false;
      }
      var waiting := nodeids[n.id];
      GroupAskers(ags, n.id);
      AssignGroup(waiting, n);
      TakeSnoc(rows, j);
    }
    assert rows[..|rows|] == rows;
    ok := true;
  }

  /** The memberships of account `id`, in the order returned. */
  ghost function MembershipsFor(ags: seq<AccountGroup>, id: int): seq<AccountGroup> {
    if ags == [] then []
    else
      MembershipsFor(ags[..|ags| - 1], id)
      + (if ags[|ags| - 1].accountID == id then [ags[|ags| - 1]] else [])
  }

  ghost function AccountKeysOf(ags: seq<AccountGroup>): seq<int> {
    seq(|ags|, i requires 0 <= i < |ags| => ags[i].accountID)
  }

  /** Each membership of the account once, in the order returned. */
  lemma {:induction false} MembershipsInOrder(ags: seq<AccountGroup>, id: int)
    ensures MembershipsFor(ags, id) == Pick(ags, Positions(AccountKeysOf(ags), id))
  {
    if ags != [] {
      var init, last := ags[..|ags| - 1], ags[|ags| - 1];
      MembershipsInOrder(init, id);
      PickedSnoc(init, last, id);
      assert ags == init + [last];
    }
  }

  lemma PickedSnoc(ags: seq<AccountGroup>, ag: AccountGroup, id: int)
    ensures Pick(ags + [ag], Positions(AccountKeysOf(ags + [ag]), id))
         == Pick(ags, Positions(AccountKeysOf(ags), id)) + (if ag.accountID == id then [ag] else [])
  {
    assert AccountKeysOf(ags + [ag]) == AccountKeysOf(ags) + [ag.accountID];
    PositionsSnoc(AccountKeysOf(ags), ag.accountID, id);
  }

  ghost function MembershipsGained(nodes: seq<Account>, ags: seq<AccountGroup>, n: Account): seq<AccountGroup> {
    if LastWithItsID(nodes, n) then MembershipsFor(ags, n.id) else []
  }

  ghost predicate MemberHoused(ag: AccountGroup, ids: seq<int>) {
    ag.accountID in ids
  }

  ghost predicate AllMembersHoused(ags: seq<AccountGroup>, ids: seq<int>) {
    forall j :: 0 <= j < |ags| ==> MemberHoused(ags[j], ids)
  }

  lemma MembershipsGainedSnoc(nodes: seq<Account>, nodeids: map<int, Account>, ags: seq<AccountGroup>, ag: AccountGroup,
                              m: Account, was: seq<AccountGroup>)
    requires KeepsLast(nodes, nodeids) && ag.accountID in nodeids
    ensures was + MembershipsGained(nodes, ags + [ag], m)
         == (was + MembershipsGained(nodes, ags, m)) + (if m == nodeids[ag.accountID] then [ag] else [])
  {
  }

  method ScatterAccountGroups(nodes: seq<Account>, nodeids: map<int, Account>, neighbors: seq<AccountGroup>)
    returns (bad: Option<nat>)
    requires KeepsLast(nodes, nodeids)
    modifies (set n | n in nodes)`AccountGroups
    ensures bad.None? <==> AllMembersHoused(neighbors, IDsOf(nodes))
    ensures bad.Some? ==> bad.value < |neighbors| && neighbors[bad.value].accountID !in IDsOf(nodes)
    ensures var done := if bad.None? then neighbors else neighbors[..bad.value];
            forall n :: n in nodes ==> n.AccountGroups == old(n.AccountGroups) + MembershipsGained(nodes, done, n)
  {
    for j := 0 to |neighbors|
      invariant AllMembersHoused(neighbors[..j], IDsOf(nodes))
      invariant forall n :: n in nodes ==>
        n.AccountGroups == old(n.AccountGroups) + MembershipsGained(nodes, neighbors[..j], n)
    {
      var n := neighbors[j];
      if n.accountID !in nodeids {
        assert !MemberHoused(n, IDsOf(nodes));
        return Some(j);
      }
      var node := nodeids[n.accountID];
      node.AccountGroups := node.AccountGroups + [n];
      TakeSnoc(neighbors, j);
      forall m | m in nodes
        ensures m.AccountGroups == old(m.AccountGroups) + MembershipsGained(nodes, neighbors[..j + 1], m)
      {
        MembershipsGainedSnoc(nodes, nodeids, neighbors[..j], n, m, old(m.AccountGroups));
      }
    }
    assert neighbors[..|neighbors|] == neighbors;
    bad := None;
  }

  method ScanMemberships(members: seq<JoinRow>) returns (ags: seq<AccountGroup>)
    ensures MemberRowsOf(ags) == members
    ensures forall ag :: ag in ags ==> fresh(ag) && ag.Group == null
  {
    ags := [];
    for i := 0 to |members|
      invariant MemberRowsOf(ags) == members[..i]
      invariant forall ag :: ag in ags ==> fresh(ag) && ag.Group == null
    {
      var ag := new AccountGroup(members[i].accountID, members[i].groupID);
      ags := ags + [ag];
    }
    assert members[..|members|] == members;
  }

  method ClearAccountGroups(nodes: seq<Account>)
    modifies (set n | n in nodes)`AccountGroups
    ensures forall n :: n in nodes ==> n.AccountGroups == []
  {
    for i := 0 to |nodes|
      invariant forall k :: 0 <= k < i ==> nodes[k].AccountGroups == []
    {
      nodes[i].AccountGroups := [];
    }
  }

  /** `loadAccountGroups` with the nested `WithGroup`, given the rows of both queries. */
  method LoadAccountGroups(nodes: seq<Account>, members: seq<JoinRow>, groups: seq<int>)
    returns (ok: bool, ghost ags: seq<AccountGroup>)
    requires forall i :: 0 <= i < |members| ==> members[i].accountID in IDsOf(nodes)
    requires forall k :: k in groups ==> Appears(members, k)
    modifies (set n | n in nodes)`AccountGroups
    ensures ok && MemberRowsOf(ags) == members
    ensures forall n :: n in nodes ==> n.AccountGroups == MembershipsGained(nodes, ags, n)
    ensures forall ag :: ag in ags ==> GroupIs(ag.Group, ag.groupID, groups)
  {
    var fks := seq(|nodes|, i requires 0 <= i < |nodes| => nodes[i].id);
    var nodeids := IndexByID(nodes, fks);
    ClearAccountGroups(nodes);
    var neighbors := ScanMemberships(members);
    ags := neighbors;
    GroupsWanted(neighbors, members, groups);
    ok := LoadGroup(neighbors, groups);
    forall j | 0 <= j < |neighbors|
      ensures MemberHoused(neighbors[j], IDsOf(nodes))
    {
      assert MemberRowsOf(neighbors)[j] == members[j];
    }
    var bad := ScatterAccountGroups(nodes, nodeids, neighbors);
    ok := ok && bad.None?;
  }

  lemma GroupsWanted(ags: seq<AccountGroup>, members: seq<JoinRow>, groups: seq<int>)
    requires MemberRowsOf(ags) == members
    requires forall k :: k in groups ==> Appears(members, k)
    ensures forall k :: k in groups ==> Some(k) in GroupKeysOf(ags)
  {
    forall k | k in groups
      ensures Some(k) in GroupKeysOf(ags)
    {
      var i :| 0 <= i < |members| && members[i].groupID == k;
      assert MemberRowsOf(ags)[i] == members[i];
      assert GroupKeysOf(ags)[i] == Some(k);
    }
  }

  // ------------------------------------------------ two paths, one relation

  datatype GroupDatabase = GroupDatabase(members: set<JoinRow>, groups: set<int>)

  // `kept` is the set of groups a caller's filter on the groups query lets through.

  /** An answer to the joined query for the accounts `page`, in any order. */
  ghost predicate AnswersJoin(rows: seq<JoinRow>, db: GroupDatabase, kept: set<int>, page: seq<int>) {
    forall r :: r in rows <==> r in db.members && r.groupID in db.groups && r.groupID in kept && r.accountID in page
  }

  /** An answer to the membership query for the accounts `page`. */
  ghost predicate AnswersMembers(members: seq<JoinRow>, db: GroupDatabase, page: seq<int>) {
    forall r :: r in members <==> r in db.members && r.accountID in page
  }

  /** An answer to the groups query for the groups those memberships name. */
  ghost predicate AnswersGroups(groups: seq<int>, db: GroupDatabase, kept: set<int>, members: seq<JoinRow>) {
    forall g :: g in groups <==> g in db.groups && g in kept && Appears(members, g)
  }

  lemma {:induction false} MembershipsExact(ags: seq<AccountGroup>, id: int)
    ensures forall ag :: ag in MembershipsFor(ags, id) <==> ag in ags && ag.accountID == id
  {
    if ags != [] {
      MembershipsExact(ags[..|ags| - 1], id);
      assert ags == ags[..|ags| - 1] + [ags[|ags| - 1]];
    }
  }

  /**
   * Main result: the groups an account holds after the direct load are, as a set, the
   * groups of its memberships after the two-step load with the same filter.
   */
  lemma PathsAgree(db: GroupDatabase, kept: set<int>, nodes: seq<Account>, n: Account,
                   rows: seq<JoinRow>, members: seq<JoinRow>, groups: seq<int>, ags: seq<AccountGroup>)
    requires AnswersJoin(rows, db, kept, IDsOf(nodes)) && AnswersMembers(members, db, IDsOf(nodes))
    requires AnswersGroups(groups, db, kept, members)
    requires n in nodes && LastWithItsID(nodes, n)
    requires GroupIDs(n.Groups) == GroupIDsFor(rows, n.id)
    requires n.AccountGroups == MembershipsGained(nodes, ags, n) && MemberRowsOf(ags) == members
    requires forall ag :: ag in ags ==> GroupIs(ag.Group, ag.groupID, groups)
    ensures (set g | g in n.Groups :: g.id) == (set ag | ag in n.AccountGroups && ag.Group != null :: ag.Group.id)
  {
    var direct := set g | g in n.Groups :: g.id;
    var indirect := set ag | ag in n.AccountGroups && ag.Group != null :: ag.Group.id;
    forall k: int
      ensures k in direct <==> k in indirect
    {
      DirectIDs(n, rows, k);
      IndirectIDs(db, kept, nodes, n, rows, members, groups, ags, k);
    }
  }

  lemma DirectIDs(n: Account, rows: seq<JoinRow>, k: int)
    requires GroupIDs(n.Groups) == GroupIDsFor(rows, n.id)
    ensures (exists g :: g in n.Groups && g.id == k) <==> JoinRow(n.id, k) in rows
  {
    JoinExact(rows, n.id);
    if JoinRow(n.id, k) in rows {
      var i :| 0 <= i < |n.Groups| && GroupIDs(n.Groups)[i] == k;
      assert n.Groups[i] in n.Groups && n.Groups[i].id == k;
    }
    if g :| g in n.Groups && g.id == k {
      var i :| 0 <= i < |n.Groups| && n.Groups[i] == g;
      assert GroupIDs(n.Groups)[i] == k;
    }
  }

  lemma IndirectIDs(db: GroupDatabase, kept: set<int>, nodes: seq<Account>, n: Account, rows: seq<JoinRow>,
                    members: seq<JoinRow>, groups: seq<int>, ags: seq<AccountGroup>, k: int)
    requires AnswersJoin(rows, db, kept, IDsOf(nodes)) && AnswersMembers(members, db, IDsOf(nodes))
    requires AnswersGroups(groups, db, kept, members)
    requires LastWithItsID(nodes, n)
    requires n.AccountGroups == MembershipsGained(nodes, ags, n) && MemberRowsOf(ags) == members
    requires forall ag :: ag in ags ==> GroupIs(ag.Group, ag.groupID, groups)
    ensures (exists ag :: ag in n.AccountGroups && ag.Group != null && ag.Group.id == k) <==> JoinRow(n.id, k) in rows
  {
    MembershipsExact(ags, n.id);
    if JoinRow(n.id, k) in rows {
      assert JoinRow(n.id, k) in members;
      var i :| 0 <= i < |members| && members[i] == JoinRow(n.id, k);
      assert MemberRowsOf(ags)[i] == members[i];
      assert ags[i] in n.AccountGroups && GroupIs(ags[i].Group, k, groups);
    }
    if ag :| ag in n.AccountGroups && ag.Group != null && ag.Group.id == k {
      var i :| 0 <= i < |ags| && ags[i] == ag;
      assert MemberRowsOf(ags)[i] == members[i];
      assert members[i] in members;
    }
  }
}
