// Upserts as they run: what the deferred conflict resolvers of a bulk or single save find
// in the builders when the insert is made, and what that means for `created_at`.
module UpsertRuns {
  import opened Prelude
  import opened AccountColumns
  import opened AccountCreation
  import opened BulkCreate
  import opened BulkCreateLaws
  import opened BulkDefaults
  import opened Upsert

  // -------------------------------------------- what the resolvers find

  /** The mutations of builders `..i`, then those of `rest`, are found by one more insert. */
  ghost predicate FindsThem(env: Env, w: World, w': World, i: nat, rest: Option<seq<Mutation>>)
    requires Shaped(env, w) && i <= |env.builders|
  {
    w'.seen == w.seen + if rest.None? then [] else [MutationsOf(env.builders[..i], w.muts) + rest.value]
  }

  lemma EarlierKeep(env: Env, muts: map<AccountCreate, Mutation>, i: nat, d: Mutation)
    requires Distinct(env.builders) && i < |env.builders| && forall b :: b in env.builders ==> b in muts
    ensures MutationsOf(env.builders[..i], muts[env.builders[i] := d]) == MutationsOf(env.builders[..i], muts)
    ensures MutationsOf(env.builders[..i + 1], muts[env.builders[i] := d]) == MutationsOf(env.builders[..i], muts) + [d]
  {
  }

  /** With distinct builders a resolver finds, for each position, the mutation whose row is inserted. */
  lemma {:induction false} ChainFinds(env: Env, w: World, i: nat, j: nat, m: Mutation, same: bool)
    requires Shaped(env, w) && Distinct(env.builders) && i < |env.builders| && j <= |env.builders[i].hooks|
    ensures var t := Through(env.builders[i].hooks, j, w.muts[env.builders[i]], m, same);
            FindsThem(env, w, Invoke(env, w, i, j, m, same).0, i, AcceptedFrom(env, w.muts, i, t))
    decreases |env.builders| - i, 1, |env.builders[i].hooks| - j
  {
    var b := env.builders[i];
    if j < |b.hooks| {
      var w1 := Log(w, Enter(i, j));
      match b.hooks[j].before(m) {
        case Veto(_) =>
        case Answer =>
        case Call(d) =>
          ChainFinds(env, if same then SetMutation(w1, b, d) else w1, i, j + 1, d, same);
          SameAfterOverwrite(env, w.muts, i, d, Through(b.hooks, j, w.muts[b], m, same));
          EarlierKeep(env, w.muts, i, d);
        case Replace(d) =>
          ChainFinds(env, w1, i, j + 1, d, false);
      }
    } else {
      BaseFinds(env, w, i, m);
    }
  }

  lemma {:induction false} BaseFinds(env: Env, w: World, i: nat, m: Mutation)
    requires Shaped(env, w) && Distinct(env.builders) && i < |env.builders|
    ensures FindsThem(env, w, Base(env, w, i, m).0, i,
                      AcceptedFrom(env, w.muts, i, Some((w.muts[env.builders[i]], m))))
    decreases |env.builders| - i, 0, 1
  {
    var b := env.builders[i];
    if PassesCheck(env.rt, w.muts[b]) {
      var w1 := StoreSpec(SetMutation(w, b, m), i, m);
      NextFinds(env, w1, i);
      EarlierKeep(env, w.muts, i, m);
      var rest := Accepted(env, w1.muts, i + 1);
      if rest.Some? {
        var before := MutationsOf(env.builders[..i], w.muts);
        assert (before + [m]) + rest.value == before + ([m] + rest.value);
      }
    }
  }

  lemma {:induction false} NextFinds(env: Env, w: World, i: nat)
    requires Shaped(env, w) && Distinct(env.builders) && i < |env.builders|
    ensures FindsThem(env, w, Next(env, w, i).0, i + 1, Accepted(env, w.muts, i + 1))
    decreases |env.builders| - i, 0, 0
  {
    if i + 1 < |env.builders| {
      ChainFinds(env, w, i + 1, 0, w.muts[env.builders[i + 1]], true);
    } else {
      assert env.builders[..i + 1] == env.builders;
      assert MutationsOf(env.builders, w.muts) + [] == MutationsOf(env.builders, w.muts);
    }
  }

  /** So whenever a bulk save of distinct builders inserts, its resolvers find the inserted mutations. */
  lemma ResolversFindWhatIsWritten(env: Env, w: World)
    requires Shaped(env, w) && Distinct(env.builders) && env.builders != []
    ensures var ms := Accepted(env, w.muts, 0);
            var w' := RunChain(env, w).0;
            w'.writes == w.writes + (if ms.None? then [] else [SpecsOf(ms.value)]) &&
            w'.seen == w.seen + (if ms.None? then [] else [ms.value])
  {
    var first := w.muts[env.builders[0]];
    OneWriteOrNone(env, w, 0, 0, first, true);
    ChainFinds(env, w, 0, 0, first, true);
    var ms := Accepted(env, w.muts, 0);
    if ms.Some? {
      assert w.specs[..0] + SpecsOf(ms.value) == SpecsOf(ms.value);
      assert MutationsOf(env.builders[..0], w.muts) + ms.value == ms.value;
    }
  }

  // ------------------------------------------------------ created_at is kept

  ghost predicate Names(spec: CreateSpecification, c: Column) {
    (exists i :: 0 <= i < |spec.fields| && spec.fields[i].column == c) ||
    (exists i :: 0 <= i < |spec.edges| && spec.edges[i].column == c)
  }

  ghost predicate SomeRowNames(specs: Specs, c: Column) {
    exists k :: 0 <= k < |specs| && specs[k].Some? && Names(specs[k].value, c)
  }

  /** The columns of one insert are those some row names. */
  ghost predicate ColumnsOf(columns: seq<Column>, specs: Specs) {
    forall c :: c in columns <==> SomeRowNames(specs, c)
  }

  lemma CreatedAtComesFromTheMutation(m: Mutation)
    ensures Names(SpecOf(m), CreatedAt) ==> CreatedAt in m.fields
  {
    SpecFieldsAreSet(m, CREATE_ORDER);
  }

  lemma WrittenColumnsAreGuarded(columns: seq<Column>, ms: seq<Mutation>)
    requires ColumnsOf(columns, SpecsOf(ms))
    ensures Guarded(columns, ms)
  {
    if CreatedAt in columns {
      assert SomeRowNames(SpecsOf(ms), CreatedAt);
      var k :| 0 <= k < |SpecsOf(ms)| && SpecsOf(ms)[k].Some? && Names(SpecsOf(ms)[k].value, CreatedAt);
      CreatedAtComesFromTheMutation(ms[k]);
    }
  }

  /**
   * Main result: whatever a bulk save of distinct builders inserts, whatever its hooks did,
   * its conflict options leave the creation time of every conflicting row alone.
   */
  lemma SavedUpsertKeepsCreatedAt(env: Env, w: World, columns: seq<Column>)
    requires Fresh(env, w) && w.seen == [] && Distinct(env.builders) && env.builders != []
    ensures var w' := RunChain(env, w).0;
            |w'.seen| == |w'.writes| <= 1 &&
            forall k :: 0 <= k < |w'.writes| && ColumnsOf(columns, w'.writes[k]) ==> AlwaysKept(columns, w'.seen[k])
  {
    ResolversFindWhatIsWritten(env, w);
    var ms := Accepted(env, w.muts, 0);
    if ms.Some? && ColumnsOf(columns, SpecsOf(ms.value)) {
      WrittenColumnsAreGuarded(columns, ms.value);
      CreatedAtExact(columns, ms.value);
    }
  }

  /** The same for a single save, whose resolver finds the mutation it inserts. */
  lemma SingleUpsertKeepsCreatedAt(m: Mutation, columns: seq<Column>)
    requires ColumnsOf(columns, SpecsOf([m]))
    ensures AlwaysKept(columns, [m])
  {
    WrittenColumnsAreGuarded(columns, [m]);
    CreatedAtExact(columns, [m]);
  }

  /** The last mutate function: what it inserts is found as the builders stand then. */
  lemma LastBaseFinds(env: Env, w: World, i: nat, m: Mutation)
    requires Shaped(env, w) && i + 1 == |env.builders| && PassesCheck(env.rt, w.muts[env.builders[i]])
    ensures Base(env, w, i, m).0.seen == w.seen + [MutationsOf(env.builders, w.muts[env.builders[i] := m])]
  {
  }

  lemma SecondTurn(env: Env, w: World, b: AccountCreate, h: Hook, m1: Mutation, m2: Mutation)
    requires Shaped(env, w) && env.builders == [b, b] && b.hooks == [h]
    requires w.muts[b] == m1 && h.before(m1) == Replace(m2) && PassesCheck(env.rt, m1)
    ensures Next(env, w, 0).0.seen == w.seen + [[m2, m2]]
  {
    var w1 := Log(w, Enter(1, 0));
    LastBaseFinds(env, w1, 1, m2);
    assert Invoke(env, w1, 1, 1, m2, false) == Base(env, w1, 1, m2);
    assert MutationsOf(env.builders, w1.muts[b := m2]) == [m2, m2];
  }

  lemma FirstTurn(env: Env, w: World, b: AccountCreate, h: Hook, m1: Mutation, m2: Mutation)
    requires Shaped(env, w) && env.builders == [b, b] && b.hooks == [h]
    requires h.before(w.muts[b]) == Call(m1) && h.before(m1) == Replace(m2) && PassesCheck(env.rt, m1)
    ensures RunChain(env, w).0.seen == w.seen + [[m2, m2]]
  {
    var w1 := SetMutation(Log(w, Enter(0, 0)), b, m1);
    var w2 := StoreSpec(SetMutation(w1, b, m1), 0, m1);
    SecondTurn(env, w2, b, h, m1, m2);
    assert Invoke(env, w1, 0, 1, m1, true) == Base(env, w1, 0, m1);
    assert Base(env, w1, 0, m1).0.seen == Next(env, w2, 0).0.seen;
  }

  lemma RepeatedWrites(env: Env, w: World, b: AccountCreate, h: Hook, m1: Mutation, m2: Mutation)
    requires Fresh(env, w) && env.builders == [b, b] && b.hooks == [h]
    requires h.before(w.muts[b]) == Call(m1) && h.before(m1) == Replace(m2) && PassesCheck(env.rt, m1)
    ensures RunChain(env, w).0.writes == [SpecsOf([m1, m2])]
  {
    var once := w.muts[b := m1];
    CalledThrough(b.hooks, h, w.muts[b], m1);
    ReplacedThrough(b.hooks, h, m1, m2);
    assert Accepted(env, once[b := m2], 2) == Some([]);
    assert [m2] + [] == [m2] && [m1] + [m2] == [m1, m2];
    assert Accepted(env, once, 1) == Some([m2]);
    OneWriteOrNone(env, w, 0, 0, w.muts[b], true);
    assert w.specs[..0] + SpecsOf([m1, m2]) == SpecsOf([m1, m2]);
  }

  /**
   * Distinct builders are needed: one builder given twice, whose hook edits the mutation
   * the first time and hands on another without a creation time the second time, inserts
   * a creation time its resolvers do not find, and the stored one can be overwritten.
   */
  lemma RepeatedBuilderLosesCreatedAt(env: Env, w: World, b: AccountCreate, h: Hook, m1: Mutation, m2: Mutation,
                                      columns: seq<Column>)
    requires Fresh(env, w) && w.seen == [] && env.builders == [b, b] && b.hooks == [h]
    requires h.before(w.muts[b]) == Call(m1) && h.before(m1) == Replace(m2)
    requires PassesCheck(env.rt, m1) && CreatedAt !in m2.fields
    requires ColumnsOf(columns, SpecsOf([m1, m2]))
    ensures var w' := RunChain(env, w).0;
            w'.writes == [SpecsOf([m1, m2])] && w'.seen == [[m2, m2]] && !AlwaysKept(columns, w'.seen[0])
  {
    FirstTurn(env, w, b, h, m1, m2);
    RepeatedWrites(env, w, b, h, m1, m2);
    CheckNeedsDefaulted(env.rt, m1, CreatedAt);
    SetFieldIsNamed(m1, CREATE_ORDER, 0);
    assert Names(SpecsOf([m1, m2])[0].value, CreatedAt);
    assert SomeRowNames(SpecsOf([m1, m2]), CreatedAt);
    CreatedAtExact(columns, [m2, m2]);
  }

  lemma {:induction false} SetFieldIsNamed(m: Mutation, order: seq<Column>, k: nat)
    requires k < |order| && order[k] in m.fields
    ensures exists i :: 0 <= i < |SpecFields(m, order)| && SpecFields(m, order)[i].column == order[k]
  {
    var init := order[..|order| - 1];
    if k < |init| {
      SetFieldIsNamed(m, init, k);
      var i :| 0 <= i < |SpecFields(m, init)| && SpecFields(m, init)[i].column == order[k];
      assert SpecFields(m, order)[i] == SpecFields(m, init)[i];
    } else {
      assert SpecFields(m, order)[|SpecFields(m, init)|].column == order[k];
    }
  }
}
