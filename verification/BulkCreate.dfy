// `AccountCreateBulk.Save` of backend/ent/account_create.go: one mutator per builder,
// each calling the next from inside its own hooks, the last one doing the single
// batch insert. `Invoke` says what running mutator `i` from its hook `j` does.
module BulkCreate {
  import opened Prelude
  import opened AccountCreation

  type Specs = seq<Option<CreateSpecification>>

  // Hook `hook` of builder `builder` being entered or left; the batch insert itself.
  datatype Event = Enter(builder: nat, hook: nat) | Exit(builder: nat, hook: nat) | Write

  // `batch` is the database's answer to one batch insert: the generated IDs, if any.
  datatype Env = Env(rt: Runtime, builders: seq<AccountCreate>, batch: Specs -> Result<seq<Option<int>>, string>)

  // Everything a save can change. `done` is by position: the flag of the mutation that
  // builder's base mutator ran with. `seen` holds, for every insert, the builders' mutations
  // at that moment, which is what a deferred conflict resolver looks at.
  datatype World = World(
    muts: map<AccountCreate, Mutation>, specs: Specs, nodes: seq<Option<Entity>>, ids: seq<Option<int>>,
    done: seq<bool>, writes: seq<Specs>, seen: seq<seq<Mutation>>, trace: seq<Event>)

  ghost predicate Shaped(env: Env, w: World) {
    |w.specs| == |w.nodes| == |w.done| == |env.builders| && forall b :: b in env.builders ==> b in w.muts
  }

  function Log(w: World, e: Event): World {
    w.(trace := w.trace + [e])
  }

  function SetMutation(w: World, b: AccountCreate, m: Mutation): World {
    w.(muts := w.muts[b := m])
  }

  /** Storing the entity and insert specification of position `i`. */
  function StoreSpec(w: World, i: nat, m: Mutation): World
    requires i < |w.specs| == |w.nodes|
  {
    w.(specs := w.specs[i := Some(SpecOf(m))], nodes := w.nodes[i := Some(NodeOf(m))])
  }

  function MutationsOf(builders: seq<AccountCreate>, muts: map<AccountCreate, Mutation>): (ms: seq<Mutation>)
    requires forall b :: b in builders ==> b in muts
    ensures |ms| == |builders| && forall i :: 0 <= i < |ms| ==> ms[i] == muts[builders[i]]
  {
    seq(|builders|, i requires 0 <= i < |builders| => muts[builders[i]])
  }

  /** The batch insert: recorded, and on success its IDs are known. */
  ghost function RunBatch(env: Env, w: World): (World, Outcome)
    requires Shaped(env, w)
  {
    var w := Log(w.(writes := w.writes + [w.specs], seen := w.seen + [MutationsOf(env.builders, w.muts)]), Write);
    match env.batch(w.specs)
    case Ok(ids) => (w.(ids := ids), Success)
    case Err(e) => (w, Failure(e))
  }

  /** After a successful rest of the chain: take over the generated ID, mark as done. */
  function Finish(w: World, i: nat): World
    requires i < |w.nodes| == |w.done|
  {
    var w := w.(done := w.done[i := true]);
    if i < |w.ids| && w.ids[i].Some? && w.nodes[i].Some? then
      w.(nodes := w.nodes[i := Some(w.nodes[i].value.(id := w.ids[i].value))])
    else w
  }

  /**
   * Mutator `i` from its hook `j` on, handed mutation `m`; `same` as long as that is
   * still the builder's own mutation, so that edits to it show in the builder.
   */
  ghost function Invoke(env: Env, w: World, i: nat, j: nat, m: Mutation, same: bool): (r: (World, Outcome))
    requires Shaped(env, w) && i < |env.builders| && j <= |env.builders[i].hooks|
    ensures Shaped(env, r.0)
    decreases |env.builders| - i, 1, |env.builders[i].hooks| - j
  {
    var b := env.builders[i];
    if j < |b.hooks| then
      var w1 := Log(w, Enter(i, j));
      match b.hooks[j].before(m)
      case Veto(e) => (Log(w1, Exit(i, j)), Failure(e))
      case Answer => (Log(w1, Exit(i, j)), Success)
      case Call(d) =>
        var (w2, o) := Invoke(env, if same then SetMutation(w1, b, d) else w1, i, j + 1, d, same);
        (Log(w2, Exit(i, j)), b.hooks[j].after(o))
      case Replace(d) =>
        var (w2, o) := Invoke(env, w1, i, j + 1, d, false);
        (Log(w2, Exit(i, j)), b.hooks[j].after(o))
    else Base(env, w, i, m)
  }

  /** The mutate function of builder `i`: check, store, hand on or insert, then take over the ID. */
  ghost function Base(env: Env, w: World, i: nat, m: Mutation): (r: (World, Outcome))
    requires Shaped(env, w) && i < |env.builders|
    ensures Shaped(env, r.0)
    decreases |env.builders| - i, 0, 1
  {
    var b := env.builders[i];
    if !PassesCheck(env.rt, w.muts[b]) then (w, Failure("check"))
    else
      var w1 := StoreSpec(SetMutation(w, b, m), i, m);
      var (w2, o) := Next(env, w1, i);
      if o.Failure? then (w2, o) else (Finish(w2, i), Success)
  }

  ghost function Next(env: Env, w: World, i: nat): (r: (World, Outcome))
    requires Shaped(env, w) && i < |env.builders|
    ensures Shaped(env, r.0)
    decreases |env.builders| - i, 0, 0
  {
    if i + 1 < |env.builders| then Invoke(env, w, i + 1, 0, w.muts[env.builders[i + 1]], true)
    else RunBatch(env, w)
  }

  /** The defaults pass of `Save`; what it reports for each builder is ignored. */
  ghost function DefaultAll(rt: Runtime, muts: map<AccountCreate, Mutation>, builders: seq<AccountCreate>)
    : (r: map<AccountCreate, Mutation>)
    requires forall b :: b in builders ==> b in muts
    ensures r.Keys == muts.Keys
  {
    if builders == [] then muts
    else
      var before := DefaultAll(rt, muts, builders[..|builders| - 1]);
      var b := builders[|builders| - 1];
      if b in before then before[b := FillFrom(rt, before[b], 0).0] else before
  }

  /** The mutator chain of `Save`, started at the outermost hook of the first builder. */
  ghost function RunChain(env: Env, w: World): (r: (World, Outcome))
    requires Shaped(env, w)
  {
    if env.builders == [] then (w, Success)
    else Invoke(env, w, 0, 0, w.muts[env.builders[0]], true)
  }

  // ------------------------------------------------------- the running save

  class BulkSave {
    const rt: Runtime
    const builders: seq<AccountCreate>
    const batch: Specs -> Result<seq<Option<int>>, string>
    const specs: array<Option<CreateSpecification>>
    const nodes: array<Option<Entity>>
    const done: array<bool>
    var ids: seq<Option<int>>
    var writes: seq<Specs>
    ghost var seen: seq<seq<Mutation>>
    var trace: seq<Event>

    constructor (rt: Runtime, builders: seq<AccountCreate>, batch: Specs -> Result<seq<Option<int>>, string>)
      ensures this.rt == rt && this.builders == builders && this.batch == batch
      ensures Valid() && fresh(specs) && fresh(nodes) && fresh(done)
      ensures forall i :: 0 <= i < |builders| ==> specs[i] == None && nodes[i] == None && !done[i]
      ensures ids == [] && writes == [] && seen == [] && trace == []
    {
      this.rt, this.builders, this.batch := rt, builders, batch;
      specs := new Option<CreateSpecification>[|builders|](_ => None);
      nodes := new Option<Entity>[|builders|](_ => None);
      done := new bool[|builders|](_ => false);
      ids, writes, seen, trace := [], [], [], [];
    }

    ghost predicate Valid() {
      specs.Length == |builders| && nodes.Length == |builders| && done.Length == |builders|
    }

    ghost function Environment(): Env {
      Env(rt, builders, batch)
    }

    ghost function State(): (w: World)
      requires Valid()
      reads this, specs, nodes, done, builders
      ensures Shaped(Environment(), w)
    {
      World(map b | b in builders :: b.mutation, specs[..], nodes[..], ids, done[..], writes, seen, trace)
    }

    method LogEvent(e: Event)
      requires Valid()
      modifies this`trace
      ensures State() == Log(old(State()), e)
    {
      trace := trace + [e];
    }

    method SetBuilderMutation(b: AccountCreate, m: Mutation)
      requires Valid() && b in builders
      modifies b`mutation
      ensures State() == SetMutation(old(State()), b, m)
    {
      b.mutation := m;
      assert State().muts == old(State()).muts[b := m];
    }

    method Store(i: nat, b: AccountCreate)
      requires Valid() && i < |builders| && b in builders
      modifies specs, nodes
      ensures State() == StoreSpec(old(State()), i, b.mutation)
    {
      var node, spec := b.CreateSpec();
      nodes[i], specs[i] := Some(node), Some(spec);
    }

    method BatchCreate() returns (o: Outcome)
      requires Valid()
      modifies this`writes, this`seen, this`trace, this`ids
      ensures (State(), o) == RunBatch(Environment(), old(State()))
    {
      ghost var before := State();
      writes := writes + [specs[..]];
      seen := seen + [MutationsOf(builders, before.muts)];
      trace := trace + [Write];
      var answer := batch(specs[..]);
      match answer {
        case Err(e) =>
          o := Failure(e);
        case Ok(generated) =>
          ids, o := generated, Success;
      }
      assert State().muts == before.muts;
    }

    method TakeID(i: nat)
      requires Valid() && i < |builders|
      modifies nodes, done
      ensures State() == Finish(old(State()), i)
    {
      if i < |ids| && ids[i].Some? && nodes[i].Some? {
        nodes[i] := Some(nodes[i].value.(id := ids[i].value));
      }
      done[i] := true;
    }

    /** Mutator `i` from its hook `j` on: the hooks, then the builder's own mutate function. */
    method Mutate(i: nat, j: nat, m: Mutation, same: bool) returns (o: Outcome)
      requires Valid() && i < |builders| && j <= |builders[i].hooks|
      modifies this`trace, this`writes, this`seen, this`ids, specs, nodes, done, (set b | b in builders)`mutation
      ensures (State(), o) == Invoke(Environment(), old(State()), i, j, m, same)
      decreases |builders| - i, 1, |builders[i].hooks| - j, 1
    {
      if j < |builders[i].hooks| {
        o := RunHook(i, j, m, same);
      } else {
        o := RunBase(i, m);
      }
    }

    method RunBase(i: nat, m: Mutation) returns (o: Outcome)
      requires Valid() && i < |builders|
      modifies this`trace, this`writes, this`seen, this`ids, specs, nodes, done, (set b | b in builders)`mutation
      ensures (State(), o) == Base(Environment(), old(State()), i, m)
      decreases |builders| - i, 0, 1
    {
      var b := builders[i];
      var err := b.Check(rt);
      CheckedByColumns(rt, b.mutation);
      if err.Some? {
        return Failure("check");
      }
      SetBuilderMutation(b, m);
      Store(i, b);
      o := HandOn(i);
      if o.Success? {
        TakeID(i);
      }
    }

    method HandOn(i: nat) returns (o: Outcome)
      requires Valid() && i < |builders|
      modifies this`trace, this`writes, this`seen, this`ids, specs, nodes, done, (set b | b in builders)`mutation
      ensures (State(), o) == Next(Environment(), old(State()), i)
      decreases |builders| - i, 0, 0
    {
      if i + 1 < |builders| {
        o := Mutate(i + 1, 0, builders[i + 1].mutation, true);
      } else {
        o := BatchCreate();
      }
    }

    method RunHook(i: nat, j: nat, m: Mutation, same: bool) returns (o: Outcome)
      requires Valid() && i < |builders| && j < |builders[i].hooks|
      modifies this`trace, this`writes, this`seen, this`ids, specs, nodes, done, (set b | b in builders)`mutation
      ensures (State(), o) == Invoke(Environment(), old(State()), i, j, m, same)
      decreases |builders| - i, 1, |builders[i].hooks| - j, 0
    {
      var b := builders[i];
      var hook := b.hooks[j];
      LogEvent(Enter(i, j));
      match hook.before(m) {
        case Veto(e) =>
          o := Failure(e);
        case Answer =>
          o := Success;
        case Call(d) =>
          if same {
            SetBuilderMutation(b, d);
          }
          o := Mutate(i, j + 1, d, same);
          o := hook.after(o);
        case Replace(d) =>
          o := Mutate(i, j + 1, d, false);
          o := hook.after(o);
      }
      LogEvent(Exit(i, j));
    }

    method ApplyDefaults()
      requires Valid()
      modifies (set b | b in builders)`mutation
      ensures State() == old(State()).(muts := DefaultAll(rt, old(State()).muts, builders))
    {
      for i := 0 to |builders|
        invariant State() == old(State()).(muts := DefaultAll(rt, old(State()).muts, builders[..i]))
      {
        assert builders[..i + 1][..i] == builders[..i];
        ghost var before := State();
        var ignored := builders[i].Defaults(rt);
        assert State().muts == before.muts[builders[i] := builders[i].mutation];
      }
      assert builders[..|builders|] == builders;
    }

    /** `Save`: the builders' own error first, then defaults, then the chain. */
    method Save(err: Option<string>) returns (r: Result<seq<Option<Entity>>, string>)
      requires Valid()
      modifies this`trace, this`writes, this`seen, this`ids, specs, nodes, done, (set b | b in builders)`mutation
      ensures err.Some? ==> State() == old(State()) && r == Err(err.value)
      ensures err.None? ==>
                var (w, o) := RunChain(Environment(),
                                       old(State()).(muts := DefaultAll(rt, old(State()).muts, builders)));
                State() == w && r == (if o.Failure? then Err(o.error) else Ok(w.nodes))
    {
      if err.Some? {
        return Err(err.value);
      }
      ApplyDefaults();
      var o := Success;
      if |builders| > 0 {
        o := Mutate(0, 0, builders[0].mutation, true);
      }
      r := if o.Failure? then Err(o.error) else Ok(nodes[..]);
    }
  }
}
