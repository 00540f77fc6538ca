// What a bulk save guarantees: the batch insert runs once or not at all, hooks nest,
// and with honest hooks success means written and the done mutations form a suffix.
module BulkCreateLaws {
  import opened Prelude
  import opened AccountCreation
  import opened BulkCreate

  // ------------------------------------------------------------- nesting

  /** Every hook from hook `j` of builder `i` on, in builder and hook order. */
  ghost function HooksFrom(env: Env, i: nat, j: nat): seq<(nat, nat)>
    requires i < |env.builders| ==> j <= |env.builders[i].hooks|
    decreases if i < |env.builders| then |env.builders| - i else 0,
              if i < |env.builders| then |env.builders[i].hooks| - j else 0
  {
    if i >= |env.builders| then []
    else if j < |env.builders[i].hooks| then [(i, j)] + HooksFrom(env, i, j + 1)
    else HooksFrom(env, i + 1, 0)
  }

  function Opens(path: seq<(nat, nat)>): seq<Event> {
    if path == [] then [] else [Enter(path[0].0, path[0].1)] + Opens(path[1..])
  }

  function Closes(path: seq<(nat, nat)>): seq<Event> {
    if path == [] then [] else Closes(path[1..]) + [Exit(path[0].0, path[0].1)]
  }

  /** What happened after `before`: hooks of `path` entered, maybe the insert, the same hooks left inside out. */
  ghost predicate Nested(before: World, after: World, path: seq<(nat, nat)>, wrote: bool) {
    after.trace == before.trace + Opens(path) + (if wrote then [Write] else []) + Closes(path) &&
    |after.writes| == |before.writes| + (if wrote then 1 else 0)
  }

  lemma NestedWrap(w: World, w1: World, w2: World, p: (nat, nat), path: seq<(nat, nat)>, wrote: bool)
    requires w1.trace == w.trace + [Enter(p.0, p.1)] && w1.writes == w.writes
    requires Nested(w1, w2, path, wrote)
    ensures Nested(w, Log(w2, Exit(p.0, p.1)), [p] + path, wrote)
  {
  }

  /**
   * Main result: a chain enters some initial stretch of the hooks, in builder and hook
   * order, then inserts if it got past all of them, then leaves exactly those hooks in
   * reverse. So hook 0 of builder 0 is outermost and each builder's hooks enclose all
   * later ones, whatever the hooks do.
   */
  lemma {:induction false} ChainNests(env: Env, w: World, i: nat, j: nat, m: Mutation, same: bool)
    returns (path: seq<(nat, nat)>, wrote: bool)
    requires Shaped(env, w) && i < |env.builders| && j <= |env.builders[i].hooks|
    ensures Nested(w, Invoke(env, w, i, j, m, same).0, path, wrote)
    ensures path <= HooksFrom(env, i, j)
    ensures wrote ==> path == HooksFrom(env, i, j)
    decreases |env.builders| - i, 1, |env.builders[i].hooks| - j
  {
    var b := env.builders[i];
    if j < |b.hooks| {
      var w1 := Log(w, Enter(i, j));
      match b.hooks[j].before(m) {
        case Veto(_) =>
          path, wrote := [], false;
          NothingNested(w1);
          NestedWrap(w, w1, w1, (i, j), [], false);
        case Answer =>
          path, wrote := [], false;
          NothingNested(w1);
          NestedWrap(w, w1, w1, (i, j), [], false);
        case Call(d) =>
          var w1' := if same then SetMutation(w1, b, d) else w1;
          path, wrote := ChainNests(env, w1', i, j + 1, d, same);
          NestedWrap(w, w1', Invoke(env, w1', i, j + 1, d, same).0, (i, j), path, wrote);
        case Replace(d) =>
          path, wrote := ChainNests(env, w1, i, j + 1, d, false);
          NestedWrap(w, w1, Invoke(env, w1, i, j + 1, d, false).0, (i, j), path, wrote);
      }
      path := [(i, j)] + path;
    } else {
      path, wrote := BaseNests(env, w, i, m);
    }
  }

  lemma NothingNested(w: World)
    ensures Nested(w, w, [], false)
  {
  }

  lemma {:induction false} BaseNests(env: Env, w: World, i: nat, m: Mutation)
    returns (path: seq<(nat, nat)>, wrote: bool)
    requires Shaped(env, w) && i < |env.builders|
    ensures Nested(w, Base(env, w, i, m).0, path, wrote)
    ensures path <= HooksFrom(env, i + 1, 0)
    ensures wrote ==> path == HooksFrom(env, i + 1, 0)
    decreases |env.builders| - i, 0
  {
    var b := env.builders[i];
    path, wrote := [], false;
    NothingNested(w);
    if PassesCheck(env.rt, w.muts[b]) {
      var w1 := StoreSpec(SetMutation(w, b, m), i, m);
      if i + 1 < |env.builders| {
        path, wrote := ChainNests(env, w1, i + 1, 0, w1.muts[env.builders[i + 1]], true);
      } else {
        wrote := true;
        assert w1.trace + [] + [Write] + [] == w1.trace + [Write];
      }
      var w2 := Next(env, w1, i).0;
      assert Nested(w1, w2, path, wrote);
      assert w1.trace == w.trace && w1.writes == w.writes;
    }
  }

  // ------------------------------------------------------------- outcomes

  /** The hooks of one chain, as `HooksFrom` lists them. */
  ghost predicate HooksOf(env: Env, path: seq<(nat, nat)>) {
    forall k :: 0 <= k < |path| ==> path[k].0 < |env.builders| && path[k].1 < |env.builders[path[k].0].hooks|
  }

  /** `inner` handed back through the hooks of `path`, the last one first. */
  ghost function Unwind(env: Env, path: seq<(nat, nat)>, inner: Outcome): Outcome
    requires HooksOf(env, path)
  {
    if path == [] then inner
    else env.builders[path[0].0].hooks[path[0].1].after(Unwind(env, path[1..], inner))
  }

  lemma {:induction false} HooksFromAreHooks(env: Env, i: nat, j: nat)
    requires i < |env.builders| ==> j <= |env.builders[i].hooks|
    ensures HooksOf(env, HooksFrom(env, i, j))
    decreases if i < |env.builders| then |env.builders| - i else 0,
              if i < |env.builders| then |env.builders[i].hooks| - j else 0
  {
    if i < |env.builders| {
      if j < |env.builders[i].hooks| {
        HooksFromAreHooks(env, i, j + 1);
      } else {
        HooksFromAreHooks(env, i + 1, 0);
      }
    }
  }

  /** The hook at `p` ends the chain with `inner`, refusing or answering some mutation. */
  ghost predicate StopsWith(env: Env, p: (nat, nat), inner: Outcome)
    requires HooksOf(env, [p])
  {
    assert [p][0] == p;
    exists m :: match env.builders[p.0].hooks[p.1].before(m)
                case Veto(e) => inner == Failure(e)
                case Answer => inner == Success
                case _ => false
  }

  /**
   * How a chain over `all` hooks ended once those of `path` had called on: with the
   * database's answer to the one insert it made, with a failed check, or with what the
   * hook after `path` said.
   */
  ghost predicate EndsWith(env: Env, before: World, after: World, all: seq<(nat, nat)>, path: seq<(nat, nat)>,
                           inner: Outcome)
    requires HooksOf(env, all)
  {
    path <= all &&
    if |after.writes| > |before.writes| then
      var answer := env.batch(after.writes[|after.writes| - 1]);
      path == all && inner == if answer.Ok? then Success else Failure(answer.error)
    else
      inner == Failure("check") || (|path| < |all| && StopsWith(env, all[|path|], inner))
  }

  /**
   * Main result: the outcome of a chain is how it ended, handed back through every hook
   * that had called on, innermost first, and through nothing else.
   */
  lemma {:induction false} ChainOutcome(env: Env, w: World, i: nat, j: nat, m: Mutation, same: bool)
    returns (path: seq<(nat, nat)>, inner: Outcome)
    requires Shaped(env, w) && i < |env.builders| && j <= |env.builders[i].hooks|
    ensures HooksOf(env, HooksFrom(env, i, j)) && HooksOf(env, path)
    ensures var (w', o) := Invoke(env, w, i, j, m, same);
            o == Unwind(env, path, inner) && EndsWith(env, w, w', HooksFrom(env, i, j), path, inner)
    decreases |env.builders| - i, 1, |env.builders[i].hooks| - j
  {
    HooksFromAreHooks(env, i, j);
    var b := env.builders[i];
    if j < |b.hooks| {
      var w1 := Log(w, Enter(i, j));
      var said := b.hooks[j].before(m);
      if said.Call? || said.Replace? {
        var own := said.Call? && same;
        var w1' := if own then SetMutation(w1, b, said.m) else w1;
        path, inner := ChainOutcome(env, w1', i, j + 1, said.m, own);
        path := Outward(env, w, Invoke(env, w1', i, j + 1, said.m, own).0, i, j, path, inner);
      } else {
        path, inner := [], if said.Veto? then Failure(said.error) else Success;
        StopsHere(env, w, i, j, m, inner);
      }
    } else {
      path, inner := BaseOutcome(env, w, i, m);
    }
  }

  lemma StopsHere(env: Env, w: World, i: nat, j: nat, m: Mutation, inner: Outcome)
    requires i < |env.builders| && j < |env.builders[i].hooks| && HooksOf(env, HooksFrom(env, i, j))
    requires match env.builders[i].hooks[j].before(m)
             case Veto(e) => inner == Failure(e)
             case Answer => inner == Success
             case _ => false
    ensures EndsWith(env, w, Log(Log(w, Enter(i, j)), Exit(i, j)), HooksFrom(env, i, j), [], inner)
  {
    assert HooksFrom(env, i, j)[0] == (i, j);
    assert StopsWith(env, (i, j), inner);
  }

  /** One hook further out. */
  lemma Outward(env: Env, w: World, w2: World, i: nat, j: nat, path: seq<(nat, nat)>, inner: Outcome)
    returns (longer: seq<(nat, nat)>)
    requires i < |env.builders| && j < |env.builders[i].hooks| && HooksOf(env, path)
    requires HooksOf(env, HooksFrom(env, i, j)) && HooksOf(env, HooksFrom(env, i, j + 1))
    requires EndsWith(env, w, w2, HooksFrom(env, i, j + 1), path, inner)
    ensures longer == [(i, j)] + path && HooksOf(env, longer)
    ensures Unwind(env, longer, inner) == env.builders[i].hooks[j].after(Unwind(env, path, inner))
    ensures EndsWith(env, w, Log(w2, Exit(i, j)), HooksFrom(env, i, j), longer, inner)
  {
    longer := [(i, j)] + path;
    assert longer[1..] == path;
    var all := HooksFrom(env, i, j + 1);
    assert |path| < |all| ==> ([(i, j)] + all)[|longer|] == all[|path|];
  }

  lemma {:induction false} BaseOutcome(env: Env, w: World, i: nat, m: Mutation)
    returns (path: seq<(nat, nat)>, inner: Outcome)
    requires Shaped(env, w) && i < |env.builders|
    ensures HooksOf(env, HooksFrom(env, i + 1, 0)) && HooksOf(env, path)
    ensures var (w', o) := Base(env, w, i, m);
            o == Unwind(env, path, inner) && EndsWith(env, w, w', HooksFrom(env, i + 1, 0), path, inner)
    decreases |env.builders| - i, 0
  {
    HooksFromAreHooks(env, i + 1, 0);
    path, inner := [], Failure("check");
    if PassesCheck(env.rt, w.muts[env.builders[i]]) {
      var w1 := StoreSpec(SetMutation(w, env.builders[i], m), i, m);
      if i + 1 < |env.builders| {
        path, inner := ChainOutcome(env, w1, i + 1, 0, w1.muts[env.builders[i + 1]], true);
      } else {
        inner := RunBatch(env, w1).1;
      }
    }
  }

  // ------------------------------------------------------ one write or none

  /**
   * What builder hooks `j..` do before anything else runs: `None` if one of them does
   * not call on, otherwise the builder's own mutation and the one its base mutator gets.
   */
  function Through(hooks: seq<Hook>, j: nat, own: Mutation, m: Mutation, same: bool): Option<(Mutation, Mutation)>
    requires j <= |hooks|
    decreases |hooks| - j
  {
    if j == |hooks| then Some((own, m))
    else
      match hooks[j].before(m)
      case Veto(_) => None
      case Answer => None
      case Call(d) => Through(hooks, j + 1, if same then d else own, d, same)
      case Replace(d) => Through(hooks, j + 1, own, d, false)
  }

  /**
   * Builder by builder: the mutations whose specifications get written, or `None` if some
   * hook stops the chain or some `check` fails.
   */
  ghost function Accepted(env: Env, muts: map<AccountCreate, Mutation>, i: nat): Option<seq<Mutation>>
    requires forall b :: b in env.builders ==> b in muts
    decreases if i < |env.builders| then |env.builders| - i else 0
  {
    if i >= |env.builders| then Some([])
    else
      var b := env.builders[i];
      AcceptedFrom(env, muts, i, Through(b.hooks, 0, muts[b], muts[b], true))
  }

  ghost function AcceptedFrom(env: Env, muts: map<AccountCreate, Mutation>, i: nat, t: Option<(Mutation, Mutation)>)
    : Option<seq<Mutation>>
    requires i < |env.builders| && forall b :: b in env.builders ==> b in muts
    decreases |env.builders| - i, 0
  {
    if t.None? || !PassesCheck(env.rt, t.value.0) then None
    else
      var rest := Accepted(env, muts[env.builders[i] := t.value.1], i + 1);
      if rest.None? then None else Some([t.value.1] + rest.value)
  }

  function SpecsOf(ms: seq<Mutation>): Specs {
    seq(|ms|, k requires 0 <= k < |ms| => Some(SpecOf(ms[k])))
  }

  /**
   * Main result: the chain writes once, exactly when every hook calls on and every check
   * passes, and then it writes specification `k` of builder `k`, in builder order.
   */
  lemma {:induction false} OneWriteOrNone(env: Env, w: World, i: nat, j: nat, m: Mutation, same: bool)
    requires Shaped(env, w) && i < |env.builders| && j <= |env.builders[i].hooks|
    ensures var t := Through(env.builders[i].hooks, j, w.muts[env.builders[i]], m, same);
            var ms := AcceptedFrom(env, w.muts, i, t);
            Invoke(env, w, i, j, m, same).0.writes
            == w.writes + (if ms.None? then [] else [w.specs[..i] + SpecsOf(ms.value)])
    decreases |env.builders| - i, 1, |env.builders[i].hooks| - j
  {
    var b := env.builders[i];
    if j < |b.hooks| {
      var w1 := Log(w, Enter(i, j));
      match b.hooks[j].before(m) {
        case Veto(_) =>
        case Answer =>
        case Call(d) =>
          OneWriteOrNone(env, if same then SetMutation(w1, b, d) else w1, i, j + 1, d, same);
          SameAfterOverwrite(env, w.muts, i, d, Through(b.hooks, j, w.muts[b], m, same));
        case Replace(d) =>
          OneWriteOrNone(env, w1, i, j + 1, d, false);
      }
    } else {
      BaseWrites(env, w, i, m);
    }
  }

  lemma SameAfterOverwrite(env: Env, muts: map<AccountCreate, Mutation>, i: nat, d: Mutation,
                           t: Option<(Mutation, Mutation)>)
    requires i < |env.builders| && forall b :: b in env.builders ==> b in muts
    ensures AcceptedFrom(env, muts[env.builders[i] := d], i, t) == AcceptedFrom(env, muts, i, t)
  {
    if t.Some? {
      assert muts[env.builders[i] := d][env.builders[i] := t.value.1] == muts[env.builders[i] := t.value.1];
    }
  }

  lemma {:induction false} BaseWrites(env: Env, w: World, i: nat, m: Mutation)
    requires Shaped(env, w) && i < |env.builders|
    ensures var ms := AcceptedFrom(env, w.muts, i, Some((w.muts[env.builders[i]], m)));
            Base(env, w, i, m).0.writes
            == w.writes + (if ms.None? then [] else [w.specs[..i] + SpecsOf(ms.value)])
    decreases |env.builders| - i, 0, 1
  {
    var b := env.builders[i];
    assert w.writes + [] == w.writes;
    if PassesCheck(env.rt, w.muts[b]) {
      var w1 := StoreSpec(SetMutation(w, b, m), i, m);
      NextWrites(env, w1, i);
      var rest := Accepted(env, w1.muts, i + 1);
      if rest.Some? {
        SpecsCons(w.specs, i, m, rest.value);
      }
    }
  }

  lemma SpecsCons(specs: Specs, i: nat, m: Mutation, rest: seq<Mutation>)
    requires i < |specs|
    ensures specs[i := Some(SpecOf(m))][..i + 1] + SpecsOf(rest) == specs[..i] + SpecsOf([m] + rest)
  {
  }

  lemma {:induction false} NextWrites(env: Env, w: World, i: nat)
    requires Shaped(env, w) && i < |env.builders|
    ensures var ms := Accepted(env, w.muts, i + 1);
            Next(env, w, i).0.writes
            == w.writes + (if ms.None? then [] else [w.specs[..i + 1] + SpecsOf(ms.value)])
    decreases |env.builders| - i, 0, 0
  {
    if i + 1 < |env.builders| {
      OneWriteOrNone(env, w, i + 1, 0, w.muts[env.builders[i + 1]], true);
    } else {
      assert w.specs[..i + 1] + SpecsOf([]) == w.specs;
    }
  }

  // ------------------------------------------------- what the entities hold

  /** Position `x` holds the entity made from `m`, with its generated ID once that is taken over. */
  ghost predicate EntityAt(w: World, x: nat, m: Mutation) {
    x < |w.nodes| && w.nodes[x].Some? &&
    (w.nodes[x].value == NodeOf(m) ||
     (x < |w.ids| && w.ids[x].Some? && w.nodes[x].value == NodeOf(m).(id := w.ids[x].value)))
  }

  /** Positions from `i` on hold the entities of `ms`; the ones before are as they were. */
  ghost predicate HoldsFrom(before: World, after: World, i: nat, ms: Option<seq<Mutation>>) {
    |after.nodes| == |before.nodes| && i <= |after.nodes| && after.nodes[..i] == before.nodes[..i] &&
    (ms.Some? ==>
       |ms.value| == |after.nodes| - i && forall x :: 0 <= x < |ms.value| ==> EntityAt(after, i + x, ms.value[x]))
  }

  lemma {:induction false} ChainHolds(env: Env, w: World, i: nat, j: nat, m: Mutation, same: bool)
    requires Shaped(env, w) && i < |env.builders| && j <= |env.builders[i].hooks|
    ensures var t := Through(env.builders[i].hooks, j, w.muts[env.builders[i]], m, same);
            HoldsFrom(w, Invoke(env, w, i, j, m, same).0, i, AcceptedFrom(env, w.muts, i, t))
    decreases |env.builders| - i, 1, |env.builders[i].hooks| - j
  {
    var b := env.builders[i];
    if j < |b.hooks| {
      var w1 := Log(w, Enter(i, j));
      match b.hooks[j].before(m) {
        case Veto(_) =>
        case Answer =>
        case Call(d) =>
          ChainHolds(env, if same then SetMutation(w1, b, d) else w1, i, j + 1, d, same);
          SameAfterOverwrite(env, w.muts, i, d, Through(b.hooks, j, w.muts[b], m, same));
        case Replace(d) =>
          ChainHolds(env, w1, i, j + 1, d, false);
      }
    } else {
      BaseHolds(env, w, i, m);
    }
  }

  lemma {:induction false} BaseHolds(env: Env, w: World, i: nat, m: Mutation)
    requires Shaped(env, w) && i < |env.builders|
    ensures HoldsFrom(w, Base(env, w, i, m).0, i, AcceptedFrom(env, w.muts, i, Some((w.muts[env.builders[i]], m))))
    decreases |env.builders| - i, 0, 1
  {
    var b := env.builders[i];
    if PassesCheck(env.rt, w.muts[b]) {
      var w1 := StoreSpec(SetMutation(w, b, m), i, m);
      NextHolds(env, w1, i);
      var (w2, o) := Next(env, w1, i);
      OneMoreHeld(w, w1, w2, i, m, Accepted(env, w1.muts, i + 1));
      if o.Success? {
        FinishHolds(w, w2, i, AcceptedFrom(env, w.muts, i, Some((w.muts[b], m))));
      }
    }
  }

  lemma {:induction false} NextHolds(env: Env, w: World, i: nat)
    requires Shaped(env, w) && i < |env.builders|
    ensures HoldsFrom(w, Next(env, w, i).0, i + 1, Accepted(env, w.muts, i + 1))
    decreases |env.builders| - i, 0, 0
  {
    if i + 1 < |env.builders| {
      ChainHolds(env, w, i + 1, 0, w.muts[env.builders[i + 1]], true);
    }
  }

  lemma OneMoreHeld(w: World, w1: World, w2: World, i: nat, m: Mutation, rest: Option<seq<Mutation>>)
    requires i < |w.nodes| && w1.nodes == w.nodes[i := Some(NodeOf(m))] && HoldsFrom(w1, w2, i + 1, rest)
    ensures HoldsFrom(w, w2, i, if rest.None? then None else Some([m] + rest.value))
  {
    PrefixOf(w1.nodes, w2.nodes, i);
    if rest.Some? {
      forall x | 0 <= x < |rest.value| + 1
        ensures EntityAt(w2, i + x, ([m] + rest.value)[x])
      {
        if x > 0 {
          assert EntityAt(w2, i + 1 + (x - 1), rest.value[x - 1]);
        }
      }
    }
  }

  lemma FinishHolds(w: World, w2: World, i: nat, ms: Option<seq<Mutation>>)
    requires i < |w2.nodes| == |w2.done| && HoldsFrom(w, w2, i, ms)
    ensures HoldsFrom(w, Finish(w2, i), i, ms)
  {
    if ms.Some? {
      forall x | 0 <= x < |ms.value|
        ensures EntityAt(Finish(w2, i), i + x, ms.value[x])
      {
        assert EntityAt(w2, i + x, ms.value[x]);
      }
    }
  }

  /** Whether `e` is the account created from `m` under the ID generated for position `x`, if any. */
  ghost predicate IsSaved(e: Option<Entity>, m: Mutation, ids: seq<Option<int>>, x: nat) {
    var id := if x < |ids| && ids[x].Some? then ids[x].value else 0;
    e == Some(NodeOf(m).(id := id)) &&
    (WellTyped(m) ==> e == Some(Entity(id, m.fields + ForeignKeys(m))))
  }

  ghost predicate AllSaved(w: World, ms: seq<Mutation>) {
    |w.nodes| == |ms| && forall x :: 0 <= x < |ms| ==> IsSaved(w.nodes[x], ms[x], w.ids, x)
  }

  lemma SavedEntity(w: World, x: nat, m: Mutation)
    requires EntityAt(w, x, m) && HasItsID(w.nodes, w.ids, x)
    ensures IsSaved(w.nodes[x], m, w.ids, x)
  {
    if WellTyped(m) {
      CreatedEntity(m);
    }
  }

  // ------------------------------------------------- honest hooks, done suffix

  ghost predicate CallsOn(h: Hook) {
    exists m :: h.before(m).Call? || h.before(m).Replace?
  }

  /** Never answers by itself, and never turns an error of the next mutator into success. */
  ghost predicate Honest(h: Hook) {
    (forall m :: !h.before(m).Answer?) && (CallsOn(h) ==> forall e :: h.after(Failure(e)).Failure?)
  }

  ghost predicate AllHonest(env: Env) {
    forall b, j :: b in env.builders && 0 <= j < |b.hooks| ==> Honest(b.hooks[j])
  }

  /** From position `i` on, exactly the positions from `k` are done. */
  ghost predicate DoneFrom(w: World, i: nat, k: nat) {
    forall x :: i <= x < |w.done| ==> (w.done[x] <==> k <= x)
  }

  /** Position `x` carries the entity of a finished save, with the ID the database generated. */
  ghost predicate HasItsID(nodes: seq<Option<Entity>>, ids: seq<Option<int>>, x: nat) {
    x < |nodes| && nodes[x].Some? && (x < |ids| && ids[x].Some? ==> nodes[x].value.id == ids[x].value)
  }

  ghost predicate Stored(env: Env, w: World, w': World, k: nat) {
    |w'.writes| == |w.writes| + 1 && env.batch(w'.writes[|w.writes|]) == Ok(w'.ids) &&
    forall x :: k <= x < |env.builders| ==> HasItsID(w'.nodes, w'.ids, x)
  }

  // The result of a chain started at position `i`: the done positions are those from `k`.
  ghost predicate Settled(env: Env, w: World, w': World, o: Outcome, i: nat, k: nat)
    requires Shaped(env, w) && Shaped(env, w') && i <= |env.builders|
  {
    i <= k <= |env.builders| && w'.done[..i] == w.done[..i] && w'.nodes[..i] == w.nodes[..i] && DoneFrom(w', i, k) &&
    (o.Success? ==> k == i) &&
    (k < |env.builders| || o.Success? ==> Stored(env, w, w', k))
  }

  lemma {:induction false} HonestChain(env: Env, w: World, i: nat, j: nat, m: Mutation, same: bool)
    returns (k: nat)
    requires Shaped(env, w) && i < |env.builders| && j <= |env.builders[i].hooks| && AllHonest(env)
    requires DoneFrom(w, i, |env.builders|)
    ensures var (w', o) := Invoke(env, w, i, j, m, same); Settled(env, w, w', o, i, k)
    decreases |env.builders| - i, 1, |env.builders[i].hooks| - j
  {
    var b := env.builders[i];
    k := |env.builders|;
    if j < |b.hooks| {
      var w1 := Log(w, Enter(i, j));
      assert b in env.builders && Honest(b.hooks[j]);
      match b.hooks[j].before(m) {
        case Veto(_) =>
        case Answer =>
          assert false;
        case Call(d) =>
          assert CallsOn(b.hooks[j]);
          k := HonestChain(env, if same then SetMutation(w1, b, d) else w1, i, j + 1, d, same);
        case Replace(d) =>
          assert CallsOn(b.hooks[j]);
          k := HonestChain(env, w1, i, j + 1, d, false);
      }
    } else {
      k := HonestBase(env, w, i, m);
    }
  }

  lemma {:induction false} HonestBase(env: Env, w: World, i: nat, m: Mutation) returns (k: nat)
    requires Shaped(env, w) && i < |env.builders| && AllHonest(env)
    requires DoneFrom(w, i, |env.builders|)
    ensures var (w', o) := Base(env, w, i, m); Settled(env, w, w', o, i, k)
    decreases |env.builders| - i, 0, 1
  {
    var b := env.builders[i];
    k := |env.builders|;
    if PassesCheck(env.rt, w.muts[b]) {
      var w1 := StoreSpec(SetMutation(w, b, m), i, m);
      k := HonestNext(env, w1, i);
      var (w2, o) := Next(env, w1, i);
      OneMoreSettled(env, w, w1, w2, o, i, k);
      if o.Success? {
        k := i;
      }
    }
  }

  lemma {:induction false} HonestNext(env: Env, w: World, i: nat) returns (k: nat)
    requires Shaped(env, w) && i < |env.builders| && AllHonest(env)
    requires DoneFrom(w, i + 1, |env.builders|)
    ensures var (w', o) := Next(env, w, i); Settled(env, w, w', o, i + 1, k)
    decreases |env.builders| - i, 0, 0
  {
    k := |env.builders|;
    if i + 1 < |env.builders| {
      k := HonestChain(env, w, i + 1, 0, w.muts[env.builders[i + 1]], true);
    }
  }

  /** From the rest of the chain settled to this builder settled as well. */
  lemma OneMoreSettled(env: Env, w: World, w1: World, w2: World, o: Outcome, i: nat, k: nat)
    requires Shaped(env, w) && Shaped(env, w1) && Shaped(env, w2) && i < |env.builders|
    requires w1.writes == w.writes && w1.done == w.done && !w.done[i] && w1.nodes[i].Some?
    requires w1.nodes[..i] == w.nodes[..i]
    requires Settled(env, w1, w2, o, i + 1, k)
    ensures o.Failure? ==> Settled(env, w, w2, o, i, k)
    ensures o.Success? ==> Settled(env, w, Finish(w2, i), o, i, i)
  {
    PrefixOf(w1.done, w2.done, i);
    PrefixOf(w1.nodes, w2.nodes, i);
    if o.Success? {
      var w3 := Finish(w2, i);
      forall x | i <= x < |env.builders|
        ensures HasItsID(w3.nodes, w3.ids, x)
      {
        assert x > i ==> HasItsID(w2.nodes, w2.ids, x);
      }
    }
  }

  lemma PrefixOf<T>(s: seq<T>, t: seq<T>, i: nat)
    requires i < |s| && i < |t| && s[..i + 1] == t[..i + 1]
    ensures s[..i] == t[..i] && s[i] == t[i]
  {
  }

  /** The state `Save` starts the chain in. */
  ghost predicate Fresh(env: Env, w: World) {
    Shaped(env, w) && w.writes == [] && forall x :: 0 <= x < |w.done| ==> !w.done[x]
  }

  /**
   * Main result: with honest hooks the done mutations are a suffix of the builders in
   * every outcome; a save that succeeds wrote once, was accepted by the database, and has
   * every mutation done and every entity carrying its generated ID; and if any hook stops
   * the chain or any check fails there is no write, nothing is done, and the save fails.
   * The entities of a successful save hold exactly what their mutations set.
   */
  lemma SaveIsAllOrNothing(env: Env, w: World) returns (k: nat)
    requires Fresh(env, w) && AllHonest(env) && env.builders != []
    ensures var (w', o) := RunChain(env, w);
            k <= |env.builders| && DoneFrom(w', 0, k) &&
            (o.Success? ==>
               k == 0 && Accepted(env, w.muts, 0).Some? &&
               w'.writes == [SpecsOf(Accepted(env, w.muts, 0).value)] && env.batch(w'.writes[0]) == Ok(w'.ids) &&
               (forall x :: 0 <= x < |env.builders| ==> HasItsID(w'.nodes, w'.ids, x)) &&
               AllSaved(w', Accepted(env, w.muts, 0).value)) &&
            (Accepted(env, w.muts, 0).None? ==> w'.writes == [] && k == |env.builders| && o.Failure?)
  {
    var first := env.builders[0];
    k := HonestChain(env, w, 0, 0, w.muts[first], true);
    OneWriteOrNone(env, w, 0, 0, w.muts[first], true);
    ChainHolds(env, w, 0, 0, w.muts[first], true);
    var ms := Accepted(env, w.muts, 0);
    if ms.Some? {
      assert w.specs[..0] + SpecsOf(ms.value) == SpecsOf(ms.value);
      var (w', o) := RunChain(env, w);
      if o.Success? {
        forall x | 0 <= x < |env.builders|
          ensures IsSaved(w'.nodes[x], ms.value[x], w'.ids, x)
        {
          assert EntityAt(w', 0 + x, ms.value[x]);
          SavedEntity(w', x, ms.value[x]);
        }
      }
    }
  }

  // ------------------------------------------------------ why honesty is needed

  // A hook can fail to be honest in two ways, and either one breaks the result above.

  /** The hook that always refuses. */
  function Refuse(e: string): Hook {
    Hook(m => Veto(e), o => o)
  }

  /** A hook that answers by itself placed first makes a save of its builder succeed with nothing written. */
  lemma AnsweringHookFakesSuccess(env: Env, w: World, b: AccountCreate, h: Hook)
    requires env.builders == [b] && b.hooks != [] && b.hooks[0] == h && Fresh(env, w) && h.before(w.muts[b]).Answer?
    ensures var (w', o) := RunChain(env, w); o == Success && w'.writes == [] && w'.nodes == w.nodes
  {
  }

  /** So does a hook that swallows an error, as soon as a later hook refuses. */
  lemma SwallowingHookFakesSuccess(env: Env, w: World, b: AccountCreate, h: Hook, e: string)
    requires env.builders == [b] && b.hooks == [h, Refuse(e)] && Fresh(env, w)
    requires h.before(w.muts[b]).Call? || h.before(w.muts[b]).Replace?
    requires h.after(Failure(e)).Success?
    ensures var (w', o) := RunChain(env, w); o == Success && w'.writes == []
  {
    var d := h.before(w.muts[b]).m;
    var w1 := Log(w, Enter(0, 0));
    var w2 := if h.before(w.muts[b]).Call? then SetMutation(w1, b, d) else w1;
    assert b.hooks[1].before(d) == Veto(e);
    assert Invoke(env, w2, 0, 1, d, h.before(w.muts[b]).Call?).1 == Failure(e);
  }

  /** The state a bulk save of `b` alone starts its chain in. */
  function Start(b: AccountCreate, m: Mutation): World {
    World(map[b := m], [None], [None], [], [false], [], [], [])
  }

  /** A bulk save of `b` alone that succeeds has made an insert the database accepted. */
  ghost predicate SuccessMeansWritten(rt: Runtime, b: AccountCreate, batch: Specs -> Result<seq<Option<int>>, string>,
                                      m: Mutation) {
    var (w, o) := RunChain(Env(rt, [b], batch), Start(b, m));
    o.Success? ==> |w.writes| == 1 && batch(w.writes[0]).Ok?
  }

  /** Honest hooks, however many, never fake a success. */
  lemma HonestSuccess(rt: Runtime, b: AccountCreate, batch: Specs -> Result<seq<Option<int>>, string>, m: Mutation)
    requires forall j :: 0 <= j < |b.hooks| ==> Honest(b.hooks[j])
    ensures SuccessMeansWritten(rt, b, batch, m)
  {
    var k := SaveIsAllOrNothing(Env(rt, [b], batch), Start(b, m));
  }

  /** Success of a builder means written, for every runtime, database and mutation. */
  ghost predicate Reliable(b: AccountCreate) {
    forall rt: Runtime, batch: Specs -> Result<seq<Option<int>>, string>, m: Mutation ::
      SuccessMeansWritten(rt, b, batch, m)
  }

  /** Honest as far as error `e` of a later hook goes. */
  ghost predicate HonestAbout(h: Hook, e: string) {
    (forall m :: !h.before(m).Answer?) && (CallsOn(h) ==> h.after(Failure(e)).Failure?)
  }

  lemma HonestAboutAll(h: Hook)
    ensures Honest(h) <==> forall e :: HonestAbout(h, e)
  {
    assert HonestAbout(h, "") ==> forall m :: !h.before(m).Answer?;
    if (forall e :: HonestAbout(h, e)) && CallsOn(h) {
      forall e
        ensures h.after(Failure(e)).Failure?
      {
        assert HonestAbout(h, e);
      }
    }
  }

  /** A builder whose hook answers, or swallows what the hook behind it reports, can fake a success. */
  lemma DishonestFakesSuccess(h: Hook, b: AccountCreate, e: string, rt: Runtime,
                              batch: Specs -> Result<seq<Option<int>>, string>)
    requires b.hooks == [h, Refuse(e)] && !HonestAbout(h, e)
    ensures exists m :: !SuccessMeansWritten(rt, b, batch, m)
  {
    if m :| h.before(m).Answer? {
      AnsweringHookFakesSuccess(Env(rt, [b], batch), Start(b, m), b, h);
      assert !SuccessMeansWritten(rt, b, batch, m);
    } else {
      var m :| h.before(m).Call? || h.before(m).Replace?;
      SwallowingHookFakesSuccess(Env(rt, [b], batch), Start(b, m), b, h, e);
      assert !SuccessMeansWritten(rt, b, batch, m);
    }
  }

  /**
   * Exactly when: success of a builder with this hook around one that reports `e` always
   * means written, if and only if the hook never answers and, where it calls on, lets
   * `e` through as an error.
   */
  lemma HonestyIsExact(h: Hook, b: AccountCreate, e: string)
    requires b.hooks == [h, Refuse(e)]
    ensures Reliable(b) <==> HonestAbout(h, e)
  {
    if HonestAbout(h, e) {
      forall rt: Runtime, batch: Specs -> Result<seq<Option<int>>, string>, m: Mutation
        ensures SuccessMeansWritten(rt, b, batch, m)
      {
        RefusedSuccess(rt, b, batch, m, h, e);
      }
    } else {
      var rt := Runtime(map[], v => true, v => true, v => true, v => true, v => true);
      var batch: Specs -> Result<seq<Option<int>>, string> := specs => Ok([]);
      DishonestFakesSuccess(h, b, e, rt, batch);
    }
  }

  lemma RefusedSuccess(rt: Runtime, b: AccountCreate, batch: Specs -> Result<seq<Option<int>>, string>, m: Mutation,
                       h: Hook, e: string)
    requires b.hooks == [h, Refuse(e)] && HonestAbout(h, e)
    ensures SuccessMeansWritten(rt, b, batch, m)
  {
    var env, w := Env(rt, [b], batch), Start(b, m);
    assert CallsOn(h) <== h.before(m).Call? || h.before(m).Replace?;
    if h.before(m).Call? || h.before(m).Replace? {
      var d := h.before(m).m;
      var w1 := Log(w, Enter(0, 0));
      var w2 := if h.before(m).Call? then SetMutation(w1, b, d) else w1;
      assert b.hooks[1].before(d) == Veto(e);
      assert Invoke(env, w2, 0, 1, d, h.before(m).Call?).1 == Failure(e);
    }
  }
}
