// Edge edits of an account update: the calls made on a builder are collected
// in the mutation's sets, turned into clear and add edge specs when the
// builder is saved, and applied by the graph layer, all clears first.
// AccountUpdate and AccountUpdateOne run the same statements here, so one
// method stands for both.
module EdgeUpdate {
  import opened Prelude

  datatype Edge = GroupsEdge | ProxyEdge

  /** A clear spec without nodes clears the whole edge. */
  datatype EdgeSpec = EdgeSpec(edge: Edge, nodes: seq<int>)

  /** The links of one stored account. */
  datatype Links = Links(groups: set<int>, proxy: Option<int>)

  /** What an AccountMutation has collected about the two edges. */
  datatype Edits = Edits(groups: set<int>, removed: set<int>, cleared: bool,
                         proxy: Option<int>, clearedProxy: bool, clearedProxyID: bool)

  const NO_EDITS := Edits({}, {}, false, None, false, false)

  datatype Call =
    | AddGroupIDs(ids: seq<int>)
    | RemoveGroupIDs(ids: seq<int>)
    | ClearGroups
    | SetProxyID(id: int)
    | ClearProxyID
    | ClearProxy

  function Elements(ids: seq<int>): set<int> {
    set g | g in ids
  }

  function Record(e: Edits, call: Call): Edits {
    match call
    case AddGroupIDs(ids) => e.(groups := e.groups + Elements(ids))
    case RemoveGroupIDs(ids) => e.(groups := e.groups - Elements(ids), removed := e.removed + Elements(ids))
    case ClearGroups => e.(cleared := true)
    case SetProxyID(id) => e.(proxy := Some(id))
    case ClearProxyID => e.(proxy := None, clearedProxyID := true)
    case ClearProxy => e.(clearedProxy := true, clearedProxyID := true)
  }

  function RecordAll(calls: seq<Call>): Edits {
    if calls == [] then NO_EDITS
    else Record(RecordAll(calls[..|calls| - 1]), calls[|calls| - 1])
  }

  class AccountMutation {
    var groups: set<int>
    var removedgroups: set<int>
    var clearedgroups: bool
    var proxy: Option<int>
    var clearedproxy: bool
    var clearedProxyField: bool

    function Value(): Edits
      reads this
    {
      Edits(groups, removedgroups, clearedgroups, proxy, clearedproxy, clearedProxyField)
    }

    constructor ()
      ensures Value() == NO_EDITS
    {
      groups, removedgroups, clearedgroups := {}, {}, false;
      proxy, clearedproxy, clearedProxyField := None, false, false;
    }

    method AddGroupIDs(ids: seq<int>)
      modifies this
      ensures Value() == Record(old(Value()), Call.AddGroupIDs(ids))
      ensures Value() == old(Value()).(groups := old(groups) + Elements(ids))
    {
      var i := 0;
      while i < |ids|
        invariant i <= |ids|
        invariant Value() == Record(old(Value()), Call.AddGroupIDs(ids[..i]))
      {
        TakeSnoc(ids, i);
        assert Elements(ids[..i + 1]) == Elements(ids[..i]) + {ids[i]};
        groups := groups + {ids[i]};
        i := i + 1;
      }
      assert ids[..i] == ids;
    }

    method RemoveGroupIDs(ids: seq<int>)
      modifies this
      ensures Value() == Record(old(Value()), Call.RemoveGroupIDs(ids))
      ensures Value() == old(Value()).(groups := old(groups) - Elements(ids),
                                       removed := old(removedgroups) + Elements(ids))
    {
      var i := 0;
      while i < |ids|
        invariant i <= |ids|
        invariant Value() == Record(old(Value()), Call.RemoveGroupIDs(ids[..i]))
      {
        TakeSnoc(ids, i);
        assert Elements(ids[..i + 1]) == Elements(ids[..i]) + {ids[i]};
        groups := groups - {ids[i]};
        removedgroups := removedgroups + {ids[i]};
        i := i + 1;
      }
      assert ids[..i] == ids;
    }

    method ClearGroups()
      modifies this
      ensures Value() == Record(old(Value()), Call.ClearGroups)
      ensures Value() == old(Value()).(cleared := true)
    {
      clearedgroups := true;
    }

    method SetProxyID(id: int)
      modifies this
      ensures Value() == Record(old(Value()), Call.SetProxyID(id))
      ensures Value() == old(Value()).(proxy := Some(id))
    {
      proxy := Some(id);
    }

    /** The field's own setter: it also forgets a proxy set before. */
    method ClearProxyID()
      modifies this
      ensures Value() == Record(old(Value()), Call.ClearProxyID)
      ensures Value() == old(Value()).(proxy := None, clearedProxyID := true)
    {
      proxy := None;
      clearedProxyField := true;
    }

    /** The edge's setter: a proxy set before stays. */
    method ClearProxy()
      modifies this
      ensures Value() == Record(old(Value()), Call.ClearProxy)
      ensures Value() == old(Value()).(clearedProxy := true, clearedProxyID := true)
    {
      clearedproxy := true;
      clearedProxyField := true;
    }
  }

  // Applying edge specs

  function ClearEdge(spec: EdgeSpec, links: Links): Links {
    match spec.edge
    case GroupsEdge => links.(groups := if spec.nodes == [] then {} else links.groups - Elements(spec.nodes))
    case ProxyEdge => links.(proxy := None)
  }

  function AddEdge(spec: EdgeSpec, links: Links): Links {
    match spec.edge
    case GroupsEdge => links.(groups := links.groups + Elements(spec.nodes))
    case ProxyEdge => links.(proxy := if spec.nodes == [] then links.proxy else Some(spec.nodes[|spec.nodes| - 1]))
  }

  function ClearEdges(specs: seq<EdgeSpec>, links: Links): Links {
    if specs == [] then links
    else ClearEdges(specs[1..], ClearEdge(specs[0], links))
  }

  function AddEdges(specs: seq<EdgeSpec>, links: Links): Links {
    if specs == [] then links
    else AddEdges(specs[1..], AddEdge(specs[0], links))
  }

  function ApplyEdges(clear: seq<EdgeSpec>, add: seq<EdgeSpec>, links: Links): Links {
    AddEdges(add, ClearEdges(clear, links))
  }

  /** The algebra of one save. */
  function Saved(e: Edits, links: Links): Links {
    Links((if e.cleared then {} else links.groups - e.removed) + e.groups,
          if e.proxy.Some? then e.proxy
          else if e.clearedProxy || e.clearedProxyID then None
          else links.proxy)
  }

  /** `ids` lists the elements of `from`, each once. */
  ghost predicate ListsOnce(ids: seq<int>, from: set<int>) {
    |ids| == |from| && Elements(ids) == from
  }

  /** The IDs of a mutation set as a node list, in whatever order the map is ranged over. */
  method IDs(from: set<int>) returns (ids: seq<int>)
    ensures ListsOnce(ids, from)
  {
    ids := [];
    var rest := from;
    while rest != {}
      invariant rest <= from
      invariant ListsOnce(ids, from - rest)
      decreases rest
    {
      var id := AnyOf(rest);
      assert Elements(ids + [id]) == Elements(ids) + {id};
      assert from - (rest - {id}) == (from - rest) + {id};
      ids, rest := ids + [id], rest - {id};
    }
  }

  /** The groups edge: an empty node list never stands for "remove these". */
  ghost predicate GroupSpecsFor(e: Edits, clear: seq<EdgeSpec>, add: seq<EdgeSpec>) {
    && (e.cleared ==> clear == [EdgeSpec(GroupsEdge, [])])
    && (!e.cleared && e.removed == {} ==> clear == [])
    && (!e.cleared && e.removed != {} ==>
          |clear| == 1 && clear[0].edge.GroupsEdge? && ListsOnce(clear[0].nodes, e.removed))
    && (e.groups == {} ==> add == [])
    && (e.groups != {} ==> |add| == 1 && add[0].edge.GroupsEdge? && ListsOnce(add[0].nodes, e.groups))
  }

  method GroupSpecs(m: AccountMutation) returns (clear: seq<EdgeSpec>, add: seq<EdgeSpec>)
    ensures GroupSpecsFor(m.Value(), clear, add)
  {
    clear, add := [], [];
    if m.clearedgroups {
      clear := clear + [EdgeSpec(GroupsEdge, [])];
    }
    var nodes := IDs(m.removedgroups);
    if |nodes| > 0 && !m.clearedgroups {
      clear := clear + [EdgeSpec(GroupsEdge, nodes)];
    }
    nodes := IDs(m.groups);
    if |nodes| > 0 {
      add := add + [EdgeSpec(GroupsEdge, nodes)];
    }
  }

  ghost predicate ProxySpecsFor(e: Edits, clear: seq<EdgeSpec>, add: seq<EdgeSpec>) {
    && clear == (if e.clearedProxyID || e.clearedProxy then [EdgeSpec(ProxyEdge, [])] else [])
    && add == (if e.proxy.Some? then [EdgeSpec(ProxyEdge, [e.proxy.value])] else [])
  }

  method ProxySpecs(m: AccountMutation) returns (clear: seq<EdgeSpec>, add: seq<EdgeSpec>)
    ensures ProxySpecsFor(m.Value(), clear, add)
  {
    clear, add := [], [];
    if m.clearedProxyField || m.clearedproxy {
      clear := clear + [EdgeSpec(ProxyEdge, [])];
    }
    if m.proxy.Some? {
      add := add + [EdgeSpec(ProxyEdge, [m.proxy.value])];
    }
  }

  lemma {:induction false} ClearEdgesAppend(a: seq<EdgeSpec>, b: seq<EdgeSpec>, links: Links)
    ensures ClearEdges(a + b, links) == ClearEdges(b, ClearEdges(a, links))
    decreases |a|
  {
    if a == [] {
      assert a + b == b;
    } else {
      assert (a + b)[1..] == a[1..] + b;
      ClearEdgesAppend(a[1..], b, ClearEdge(a[0], links));
    }
  }

  lemma {:induction false} AddEdgesAppend(a: seq<EdgeSpec>, b: seq<EdgeSpec>, links: Links)
    ensures AddEdges(a + b, links) == AddEdges(b, AddEdges(a, links))
    decreases |a|
  {
    if a == [] {
      assert a + b == b;
    } else {
      assert (a + b)[1..] == a[1..] + b;
      AddEdgesAppend(a[1..], b, AddEdge(a[0], links));
    }
  }

  lemma GroupSpecsApplied(e: Edits, clear: seq<EdgeSpec>, add: seq<EdgeSpec>, links: Links)
    requires GroupSpecsFor(e, clear, add)
    ensures ClearEdges(clear, links) == links.(groups := if e.cleared then {} else links.groups - e.removed)
    ensures AddEdges(add, links) == links.(groups := links.groups + e.groups)
  {
  }

  lemma ProxySpecsApplied(e: Edits, clear: seq<EdgeSpec>, add: seq<EdgeSpec>, links: Links)
    requires ProxySpecsFor(e, clear, add)
    ensures ClearEdges(clear, links) ==
            links.(proxy := if e.clearedProxyID || e.clearedProxy then None else links.proxy)
    ensures AddEdges(add, links) == links.(proxy := if e.proxy.Some? then e.proxy else links.proxy)
  {
  }

  ghost predicate EdgeSpecsFor(e: Edits, clear: seq<EdgeSpec>, add: seq<EdgeSpec>) {
    exists i, j :: 0 <= i <= |clear| && 0 <= j <= |add| &&
      GroupSpecsFor(e, clear[..i], add[..j]) && ProxySpecsFor(e, clear[i..], add[j..])
  }

  /** The edge part of sqlSave, the groups first. */
  method SqlSaveEdges(m: AccountMutation) returns (clear: seq<EdgeSpec>, add: seq<EdgeSpec>)
    ensures EdgeSpecsFor(m.Value(), clear, add)
  {
    var groupClear, groupAdd := GroupSpecs(m);
    var proxyClear, proxyAdd := ProxySpecs(m);
    clear, add := groupClear + proxyClear, groupAdd + proxyAdd;
    assert clear[..|groupClear|] == groupClear && clear[|groupClear|..] == proxyClear;
    assert add[..|groupAdd|] == groupAdd && add[|groupAdd|..] == proxyAdd;
  }

  /**
   * Whatever order the sets are listed in, applying the specs of one save
   * leaves (nothing if cleared, else the old groups minus the removed)
   * together with the added.
   */
  lemma EdgeAlgebra(e: Edits, clear: seq<EdgeSpec>, add: seq<EdgeSpec>, links: Links)
    requires EdgeSpecsFor(e, clear, add)
    ensures ApplyEdges(clear, add, links) == Saved(e, links)
  {
    var i, j :| 0 <= i <= |clear| && 0 <= j <= |add| &&
      GroupSpecsFor(e, clear[..i], add[..j]) && ProxySpecsFor(e, clear[i..], add[j..]);
    PartsApplied(e, clear[..i], clear[i..], add[..j], add[j..], links);
    assert clear == clear[..i] + clear[i..] && add == add[..j] + add[j..];
  }

  lemma PartsApplied(e: Edits, groupClear: seq<EdgeSpec>, proxyClear: seq<EdgeSpec>,
                     groupAdd: seq<EdgeSpec>, proxyAdd: seq<EdgeSpec>, links: Links)
    requires GroupSpecsFor(e, groupClear, groupAdd) && ProxySpecsFor(e, proxyClear, proxyAdd)
    ensures ApplyEdges(groupClear + proxyClear, groupAdd + proxyAdd, links) == Saved(e, links)
  {
    SpecsCleared(e, groupClear, proxyClear, groupAdd, proxyAdd, links);
    SpecsAdded(e, groupClear, proxyClear, groupAdd, proxyAdd, ClearEdges(groupClear + proxyClear, links));
  }

  lemma SpecsCleared(e: Edits, groupClear: seq<EdgeSpec>, proxyClear: seq<EdgeSpec>,
                     groupAdd: seq<EdgeSpec>, proxyAdd: seq<EdgeSpec>, links: Links)
    requires GroupSpecsFor(e, groupClear, groupAdd) && ProxySpecsFor(e, proxyClear, proxyAdd)
    ensures ClearEdges(groupClear + proxyClear, links)
         == Links(if e.cleared then {} else links.groups - e.removed,
                  if e.clearedProxyID || e.clearedProxy then None else links.proxy)
  {
    ClearEdgesAppend(groupClear, proxyClear, links);
    GroupSpecsApplied(e, groupClear, groupAdd, links);
    ProxySpecsApplied(e, proxyClear, proxyAdd, ClearEdges(groupClear, links));
  }

  lemma SpecsAdded(e: Edits, groupClear: seq<EdgeSpec>, proxyClear: seq<EdgeSpec>,
                   groupAdd: seq<EdgeSpec>, proxyAdd: seq<EdgeSpec>, links: Links)
    requires GroupSpecsFor(e, groupClear, groupAdd) && ProxySpecsFor(e, proxyClear, proxyAdd)
    ensures AddEdges(groupAdd + proxyAdd, links)
         == Links(links.groups + e.groups, if e.proxy.Some? then e.proxy else links.proxy)
  {
    AddEdgesAppend(groupAdd, proxyAdd, links);
    GroupSpecsApplied(e, groupClear, groupAdd, links);
    ProxySpecsApplied(e, proxyClear, proxyAdd, AddEdges(groupAdd, links));
  }

  // One save against the calls made one after the other

  function Effect(links: Links, call: Call): Links {
    match call
    case AddGroupIDs(ids) => links.(groups := links.groups + Elements(ids))
    case RemoveGroupIDs(ids) => links.(groups := links.groups - Elements(ids))
    case ClearGroups => links.(groups := {})
    case SetProxyID(id) => links.(proxy := Some(id))
    case ClearProxyID => links.(proxy := None)
    case ClearProxy => links.(proxy := None)
  }

  function Replay(calls: seq<Call>, links: Links): Links {
    if calls == [] then links
    else Effect(Replay(calls[..|calls| - 1], links), calls[|calls| - 1])
  }

  predicate Adds(call: Call, g: int) {
    call.AddGroupIDs? && g in call.ids
  }

  predicate Mentions(call: Call, g: int) {
    (call.AddGroupIDs? || call.RemoveGroupIDs?) && g in call.ids
  }

  /** ClearGroups was called after `g` was added, and `g` was not named again. */
  ghost predicate ClearedTooLate(calls: seq<Call>, g: int) {
    exists i, j :: 0 <= i < j < |calls| && Adds(calls[i], g) && calls[j].ClearGroups? &&
      forall k :: i < k < |calls| ==> !Mentions(calls[k], g)
  }

  /** ClearProxy was called after a proxy was set, and no other proxy ID call followed. */
  ghost predicate ProxyClearedTooLate(calls: seq<Call>) {
    exists i, j :: 0 <= i < j < |calls| && calls[i].SetProxyID? && calls[j].ClearProxy? &&
      forall k :: i < k < |calls| ==> !calls[k].SetProxyID? && !calls[k].ClearProxyID?
  }

  /** The last call naming `g` added it. */
  ghost predicate AddedLast(calls: seq<Call>, g: int) {
    exists i :: 0 <= i < |calls| && Adds(calls[i], g) && forall k :: i < k < |calls| ==> !Mentions(calls[k], g)
  }

  ghost predicate ProxySetLast(calls: seq<Call>) {
    exists i :: 0 <= i < |calls| && calls[i].SetProxyID? &&
      forall k :: i < k < |calls| ==> !calls[k].SetProxyID? && !calls[k].ClearProxyID?
  }

  lemma AddedLastSnoc(calls: seq<Call>, call: Call, g: int)
    ensures AddedLast(calls + [call], g) <==> Adds(call, g) || (AddedLast(calls, g) && !Mentions(call, g))
  {
    var all := calls + [call];
    assert all[|calls|] == call;
    assert forall k :: 0 <= k < |calls| ==> all[k] == calls[k];
    if AddedLast(calls, g) && !Mentions(call, g) {
      var i :| 0 <= i < |calls| && Adds(calls[i], g) && forall k :: i < k < |calls| ==> !Mentions(calls[k], g);
      assert Adds(all[i], g) && forall k :: i < k < |all| ==> !Mentions(all[k], g);
    }
  }

  lemma ClearedTooLateSnoc(calls: seq<Call>, call: Call, g: int)
    ensures ClearedTooLate(calls + [call], g) <==>
            (ClearedTooLate(calls, g) || (AddedLast(calls, g) && call.ClearGroups?)) && !Mentions(call, g)
  {
    var all := calls + [call];
    assert all[|calls|] == call;
    assert forall k :: 0 <= k < |calls| ==> all[k] == calls[k];
    if AddedLast(calls, g) && call.ClearGroups? {
      var i :| 0 <= i < |calls| && Adds(calls[i], g) && forall k :: i < k < |calls| ==> !Mentions(calls[k], g);
      assert Adds(all[i], g) && forall k :: i < k < |all| ==> !Mentions(all[k], g);
      assert all[|calls|].ClearGroups?;
    }
    if ClearedTooLate(calls, g) && !Mentions(call, g) {
      var i, j :| 0 <= i < j < |calls| && Adds(calls[i], g) && calls[j].ClearGroups? &&
        forall k :: i < k < |calls| ==> !Mentions(calls[k], g);
      assert Adds(all[i], g) && all[j].ClearGroups? && forall k :: i < k < |all| ==> !Mentions(all[k], g);
    }
  }

  lemma ProxySetLastSnoc(calls: seq<Call>, call: Call)
    ensures ProxySetLast(calls + [call]) <==>
            call.SetProxyID? || (ProxySetLast(calls) && !call.ClearProxyID?)
    ensures ProxyClearedTooLate(calls + [call]) <==>
            (ProxyClearedTooLate(calls) || (ProxySetLast(calls) && call.ClearProxy?))
            && !call.SetProxyID? && !call.ClearProxyID?
  {
    var all := calls + [call];
    assert all[|calls|] == call;
    assert forall k :: 0 <= k < |calls| ==> all[k] == calls[k];
    if ProxySetLast(calls) && !call.ClearProxyID? && !call.SetProxyID? {
      var i :| 0 <= i < |calls| && calls[i].SetProxyID? &&
        forall k :: i < k < |calls| ==> !calls[k].SetProxyID? && !calls[k].ClearProxyID?;
      assert all[i].SetProxyID? && forall k :: i < k < |all| ==> !all[k].SetProxyID? && !all[k].ClearProxyID?;
      if call.ClearProxy? {
        assert all[|calls|].ClearProxy?;
        assert ProxyClearedTooLate(all);
      }
    }
    if ProxyClearedTooLate(calls) && !call.SetProxyID? && !call.ClearProxyID? {
      var i, j :| 0 <= i < j < |calls| && calls[i].SetProxyID? && calls[j].ClearProxy? &&
        forall k :: i < k < |calls| ==> !calls[k].SetProxyID? && !calls[k].ClearProxyID?;
      assert all[i].SetProxyID? && all[j].ClearProxy? &&
        forall k :: i < k < |all| ==> !all[k].SetProxyID? && !all[k].ClearProxyID?;
    }
  }

  /** After the calls the mutation still lists `g` exactly when its last mention added it. */
  lemma {:induction false} RecordedGroup(calls: seq<Call>, g: int)
    ensures g in RecordAll(calls).groups <==> AddedLast(calls, g)
  {
    if calls != [] {
      var init, last := calls[..|calls| - 1], calls[|calls| - 1];
      assert calls == init + [last];
      RecordedGroup(init, g);
      AddedLastSnoc(init, last, g);
    }
  }

  /** One more call, recorded for the save and made at once. */
  lemma GroupStep(e: Edits, call: Call, links: Links, replayed: Links, g: int)
    ensures g in Effect(replayed, call).groups <==>
            Adds(call, g) || (g in replayed.groups && !Mentions(call, g) && !call.ClearGroups?)
    ensures g in Saved(Record(e, call), links).groups <==>
            Adds(call, g) || (g in Saved(e, links).groups && !Mentions(call, g) && (call.ClearGroups? ==> g in e.groups))
  {
  }

  /** One group through a save and through a replay: they part exactly on a late clear. */
  lemma {:induction false} GroupReplay(calls: seq<Call>, links: Links, g: int)
    ensures ClearedTooLate(calls, g) ==> g in Saved(RecordAll(calls), links).groups
    ensures ClearedTooLate(calls, g) ==> g !in Replay(calls, links).groups
    ensures !ClearedTooLate(calls, g) ==>
            (g in Saved(RecordAll(calls), links).groups <==> g in Replay(calls, links).groups)
  {
    if calls != [] {
      var init, last := calls[..|calls| - 1], calls[|calls| - 1];
      assert calls == init + [last];
      GroupReplay(init, links, g);
      RecordedGroup(init, g);
      ClearedTooLateSnoc(init, last, g);
      GroupStep(RecordAll(init), last, links, Replay(init, links), g);
    }
  }

  lemma {:induction false} ProxyReplay(calls: seq<Call>, links: Links)
    ensures RecordAll(calls).proxy.Some? <==> ProxySetLast(calls)
    ensures ProxyClearedTooLate(calls) ==> Saved(RecordAll(calls), links).proxy.Some?
    ensures ProxyClearedTooLate(calls) ==> Replay(calls, links).proxy.None?
    ensures !ProxyClearedTooLate(calls) ==> Saved(RecordAll(calls), links).proxy == Replay(calls, links).proxy
  {
    if calls != [] {
      var init, last := calls[..|calls| - 1], calls[|calls| - 1];
      assert calls == init + [last];
      ProxyReplay(init, links);
      ProxySetLastSnoc(init, last);
    }
  }

  lemma Difference<T>(a: set<T>, b: set<T>) returns (g: T)
    requires a != b
    ensures g in a <==> g !in b
  {
    var apart := (a - b) + (b - a);
    assert a <= b && b <= a ==> a == b;
    assert apart != {};
    g :| g in apart;
  }

  /**
   * Saving once does what the calls do one after the other exactly when no
   * ClearGroups comes after an addition left standing, and no ClearProxy
   * after a proxy left standing.
   */
  lemma SaveIsReplay(calls: seq<Call>, links: Links)
    ensures Saved(RecordAll(calls), links) == Replay(calls, links) <==>
            (forall g :: !ClearedTooLate(calls, g)) && !ProxyClearedTooLate(calls)
  {
    var saved, replayed := Saved(RecordAll(calls), links), Replay(calls, links);
    ProxyReplay(calls, links);
    forall g
      ensures ClearedTooLate(calls, g) ==> g in saved.groups && g !in replayed.groups
      ensures !ClearedTooLate(calls, g) ==> (g in saved.groups <==> g in replayed.groups)
    {
      GroupReplay(calls, links, g);
    }
    if saved.groups != replayed.groups {
      var g := Difference(saved.groups, replayed.groups);
      assert ClearedTooLate(calls, g);
    }
  }

  /** Adding group 7 and then clearing keeps group 7. */
  lemma ClearDoesNotForgetAdditions()
    ensures RecordAll([AddGroupIDs([7]), ClearGroups]).groups == {7}
    ensures Saved(RecordAll([AddGroupIDs([7]), ClearGroups]), Links({}, None)).groups == {7}
    ensures Replay([AddGroupIDs([7]), ClearGroups], Links({}, None)).groups == {}
  {
  }

  /** Setting proxy 3 and then clearing the edge keeps proxy 3; clearing the field does not. */
  lemma EdgeAndFieldClearsDiffer(links: Links)
    ensures Saved(RecordAll([SetProxyID(3), ClearProxy]), links).proxy == Some(3)
    ensures Saved(RecordAll([SetProxyID(3), ClearProxyID]), links).proxy == None
  {
  }
}
