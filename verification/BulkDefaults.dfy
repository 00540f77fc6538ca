// What a bulk save does about `defaults` and `check`: it ignores the error of the one and
// runs the other inside the hooks, where a single save stops at the first and runs the
// second on the mutation its hooks handed on.
module BulkDefaults {
  import opened Prelude
  import opened AccountColumns
  import opened AccountCreation
  import opened BulkCreate
  import opened BulkCreateLaws

  // ------------------------------------------------------- each builder alone

  /** The column whose default is missing, if `defaults` fails on `m`. */
  function Failed(rt: Runtime, m: Mutation): Option<Column> {
    FillFrom(rt, m, 0).1
  }

  /** What `defaults` leaves, failed or not. */
  function Defaulted(rt: Runtime, m: Mutation): Mutation {
    FillFrom(rt, m, 0).0
  }

  /**
   * From the mutation a builder was configured with to its base mutator: the builder's own
   * mutation then and the one handed on, or `None` if a hook does not call on.
   */
  function Reached(rt: Runtime, hooks: seq<Hook>, m: Mutation): Option<(Mutation, Mutation)> {
    Through(hooks, 0, Defaulted(rt, m), Defaulted(rt, m), true)
  }

  /** In bulk the builder lets the chain pass: its hooks call on and its own mutation passes `check`. */
  predicate LetsThrough(rt: Runtime, hooks: seq<Hook>, m: Mutation) {
    Reached(rt, hooks, m).Some? && PassesCheck(rt, Reached(rt, hooks, m).value.0)
  }

  /**
   * The mutation a single save writes, if it writes: `defaults` must succeed, and
   * `withHooks` copies the handed-on mutation into the builder before `check` runs.
   */
  function SingleSave(rt: Runtime, hooks: seq<Hook>, m: Mutation): Option<Mutation> {
    var t := Reached(rt, hooks, m);
    if Failed(rt, m).None? && t.Some? && PassesCheck(rt, t.value.1) then Some(t.value.1) else None
  }

  ghost predicate Configured(env: Env, muts: map<AccountCreate, Mutation>) {
    Distinct(env.builders) && forall b :: b in env.builders ==> b in muts
  }

  /** Builder `k`, run alone from the mutation it was configured with. */
  ghost function ReachedBy(env: Env, muts: map<AccountCreate, Mutation>, k: nat): Option<(Mutation, Mutation)>
    requires Configured(env, muts) && k < |env.builders|
  {
    Reached(env.rt, env.builders[k].hooks, muts[env.builders[k]])
  }

  ghost predicate BuilderLetsThrough(env: Env, muts: map<AccountCreate, Mutation>, k: nat)
    requires Configured(env, muts) && k < |env.builders|
  {
    LetsThrough(env.rt, env.builders[k].hooks, muts[env.builders[k]])
  }

  /** The defaults pass treats distinct builders independently. */
  lemma {:induction false} DefaultAllEach(rt: Runtime, muts: map<AccountCreate, Mutation>, builders: seq<AccountCreate>)
    requires Distinct(builders) && forall b :: b in builders ==> b in muts
    ensures var after := DefaultAll(rt, muts, builders);
            (forall k :: 0 <= k < |builders| ==> after[builders[k]] == Defaulted(rt, muts[builders[k]])) &&
            forall b :: b in muts && b !in builders ==> after[b] == muts[b]
  {
    if builders != [] {
      var init, last := builders[..|builders| - 1], builders[|builders| - 1];
      assert forall k :: 0 <= k < |init| ==> init[k] == builders[k];
      assert last !in init;
      DefaultAllEach(rt, muts, init);
    }
  }

  /** The mutations handed on by builders `i..`, each run alone. */
  ghost function HandedOn(env: Env, muts: map<AccountCreate, Mutation>, i: nat): seq<Mutation>
    requires Configured(env, muts) && i <= |env.builders|
    requires forall k :: i <= k < |env.builders| ==> ReachedBy(env, muts, k).Some?
    ensures |HandedOn(env, muts, i)| == |env.builders| - i
    decreases |env.builders| - i
  {
    if i == |env.builders| then [] else [ReachedBy(env, muts, i).value.1] + HandedOn(env, muts, i + 1)
  }

  /** In the chain, builders from `i` on still have what `defaults` left them. */
  ghost predicate StillDefaulted(env: Env, muts: map<AccountCreate, Mutation>, now: map<AccountCreate, Mutation>, i: nat)
    requires Configured(env, muts)
  {
    (forall b :: b in env.builders ==> b in now) &&
    forall k :: i <= k < |env.builders| ==> now[env.builders[k]] == Defaulted(env.rt, muts[env.builders[k]])
  }

  /** The chain of distinct builders writes what each builder alone hands on, if all let it through. */
  lemma {:induction false} AcceptedEach(env: Env, muts: map<AccountCreate, Mutation>,
                                        now: map<AccountCreate, Mutation>, i: nat)
    requires Configured(env, muts) && i <= |env.builders| && StillDefaulted(env, muts, now, i)
    ensures Accepted(env, now, i).Some? <==> forall k :: i <= k < |env.builders| ==> BuilderLetsThrough(env, muts, k)
    ensures Accepted(env, now, i).Some? ==>
              (forall k :: i <= k < |env.builders| ==> ReachedBy(env, muts, k).Some?) &&
              Accepted(env, now, i).value == HandedOn(env, muts, i)
    decreases |env.builders| - i
  {
    if i < |env.builders| {
      var b := env.builders[i];
      var t := ReachedBy(env, muts, i);
      if BuilderLetsThrough(env, muts, i) {
        AcceptedEach(env, muts, now[b := t.value.1], i + 1);
      }
    }
  }

  // ------------------------------------------------- bulk against single saves

  /** Saving the builders one by one, all of them: the mutations written if every save succeeds, else `None`. */
  ghost function SingleSaves(env: Env, muts: map<AccountCreate, Mutation>, i: nat): Option<seq<Mutation>>
    requires Configured(env, muts) && i <= |env.builders|
    decreases |env.builders| - i
  {
    if i == |env.builders| then Some([])
    else
      var b := env.builders[i];
      var one, rest := SingleSave(env.rt, b.hooks, muts[b]), SingleSaves(env, muts, i + 1);
      if one.None? || rest.None? then None else Some([one.value] + rest.value)
  }

  ghost predicate SavedAlone(env: Env, muts: map<AccountCreate, Mutation>, k: nat)
    requires Configured(env, muts) && k < |env.builders|
  {
    SingleSave(env.rt, env.builders[k].hooks, muts[env.builders[k]]).Some?
  }

  lemma {:induction false} SingleSavesEach(env: Env, muts: map<AccountCreate, Mutation>, i: nat)
    requires Configured(env, muts) && i <= |env.builders|
    ensures SingleSaves(env, muts, i).Some? <==> SavedAloneFrom(env, muts, i)
    decreases |env.builders| - i
  {
    if i < |env.builders| {
      SingleSavesEach(env, muts, i + 1);
      SingleSavesStep(env, muts, i);
      SavedAloneFromStep(env, muts, i);
    }
  }

  ghost predicate SavedAloneFrom(env: Env, muts: map<AccountCreate, Mutation>, i: nat)
    requires Configured(env, muts)
  {
    forall k :: i <= k < |env.builders| ==> SavedAlone(env, muts, k)
  }

  lemma SingleSavesStep(env: Env, muts: map<AccountCreate, Mutation>, i: nat)
    requires Configured(env, muts) && i < |env.builders|
    ensures SingleSaves(env, muts, i).Some? <==> SavedAlone(env, muts, i) && SingleSaves(env, muts, i + 1).Some?
  {
  }

  lemma SavedAloneFromStep(env: Env, muts: map<AccountCreate, Mutation>, i: nat)
    requires Configured(env, muts) && i < |env.builders|
    ensures SavedAloneFrom(env, muts, i) <==> SavedAlone(env, muts, i) && SavedAloneFrom(env, muts, i + 1)
  {
  }

  lemma SavedAloneReaches(env: Env, muts: map<AccountCreate, Mutation>, k: nat)
    requires Configured(env, muts) && k < |env.builders| && SavedAlone(env, muts, k)
    ensures var b := env.builders[k];
            ReachedBy(env, muts, k).Some? && SingleSave(env.rt, b.hooks, muts[b]) == Some(ReachedBy(env, muts, k).value.1)
  {
  }

  lemma {:induction false} SingleSavesValue(env: Env, muts: map<AccountCreate, Mutation>, i: nat)
    requires Configured(env, muts) && i <= |env.builders|
    requires SavedAloneFrom(env, muts, i)
    ensures forall k :: i <= k < |env.builders| ==> ReachedBy(env, muts, k).Some?
    ensures SingleSaves(env, muts, i) == Some(HandedOn(env, muts, i))
    decreases |env.builders| - i
  {
    if i < |env.builders| {
      SavedAloneReaches(env, muts, i);
      SingleSavesValue(env, muts, i + 1);
    }
  }

  ghost predicate CallsOnAt(env: Env, muts: map<AccountCreate, Mutation>, k: nat)
    requires Configured(env, muts) && k < |env.builders|
  {
    ReachedBy(env, muts, k).Some?
  }

  /** The mutation the builder still owns at its check passes it. */
  ghost predicate OwnPassesAt(env: Env, muts: map<AccountCreate, Mutation>, k: nat)
    requires Configured(env, muts) && k < |env.builders|
  {
    CallsOnAt(env, muts, k) ==> PassesCheck(env.rt, ReachedBy(env, muts, k).value.0)
  }

  /** The mutation handed on passes, and `defaults` did not fail. */
  ghost predicate HandedOnPassesAt(env: Env, muts: map<AccountCreate, Mutation>, k: nat)
    requires Configured(env, muts) && k < |env.builders|
  {
    Failed(env.rt, muts[env.builders[k]]) == None &&
    (CallsOnAt(env, muts, k) ==> PassesCheck(env.rt, ReachedBy(env, muts, k).value.1))
  }

  ghost predicate AllCallOn(env: Env, muts: map<AccountCreate, Mutation>)
    requires Configured(env, muts)
  {
    forall k :: 0 <= k < |env.builders| ==> CallsOnAt(env, muts, k)
  }

  ghost predicate OwnPass(env: Env, muts: map<AccountCreate, Mutation>)
    requires Configured(env, muts)
  {
    forall k :: 0 <= k < |env.builders| ==> OwnPassesAt(env, muts, k)
  }

  ghost predicate HandedOnPass(env: Env, muts: map<AccountCreate, Mutation>)
    requires Configured(env, muts)
  {
    forall k :: 0 <= k < |env.builders| ==> HandedOnPassesAt(env, muts, k)
  }

  ghost predicate AllLetThrough(env: Env, muts: map<AccountCreate, Mutation>)
    requires Configured(env, muts)
  {
    forall k :: 0 <= k < |env.builders| ==> BuilderLetsThrough(env, muts, k)
  }

  lemma Verdicts(env: Env, muts: map<AccountCreate, Mutation>)
    requires Configured(env, muts)
    ensures AllLetThrough(env, muts) <==> AllCallOn(env, muts) && OwnPass(env, muts)
    ensures SavedAloneFrom(env, muts, 0) <==> AllCallOn(env, muts) && HandedOnPass(env, muts)
  {
    forall k | 0 <= k < |env.builders|
      ensures BuilderLetsThrough(env, muts, k) <==> CallsOnAt(env, muts, k) && OwnPassesAt(env, muts, k)
      ensures SavedAlone(env, muts, k) <==> CallsOnAt(env, muts, k) && HandedOnPassesAt(env, muts, k)
    {
    }
  }

  /**
   * Exactly when: a bulk save of distinct builders passes as a whole, with the same
   * mutations, just when all single saves do, if and only if, unless some hook refuses
   * anyway, the builders' own mutations all pass `check` just when the mutations handed
   * on do and no `defaults` failed.
   */
  lemma BulkPassesLikeSingles(env: Env, muts: map<AccountCreate, Mutation>)
    requires Configured(env, muts)
    ensures Accepted(env, DefaultAll(env.rt, muts, env.builders), 0) == SingleSaves(env, muts, 0)
       <==> (AllCallOn(env, muts) ==> (OwnPass(env, muts) <==> HandedOnPass(env, muts)))
  {
    DefaultAllEach(env.rt, muts, env.builders);
    AcceptedEach(env, muts, DefaultAll(env.rt, muts, env.builders), 0);
    SingleSavesEach(env, muts, 0);
    if SavedAloneFrom(env, muts, 0) {
      SingleSavesValue(env, muts, 0);
    }
    Verdicts(env, muts);
  }

  /** The rows single saves of builders `i..` hand to the database: a save that refuses adds none. */
  ghost function WrittenAlone(env: Env, muts: map<AccountCreate, Mutation>, i: nat): seq<Mutation>
    requires Configured(env, muts) && i <= |env.builders|
    decreases |env.builders| - i
  {
    if i == |env.builders| then []
    else
      var b := env.builders[i];
      var one := SingleSave(env.rt, b.hooks, muts[b]);
      (if one.None? then [] else [one.value]) + WrittenAlone(env, muts, i + 1)
  }

  /** The rows a bulk save hands to the database. */
  ghost function WrittenInBulk(env: Env, muts: map<AccountCreate, Mutation>): seq<Mutation>
    requires Configured(env, muts)
  {
    DefaultAllEach(env.rt, muts, env.builders);
    var ms := Accepted(env, DefaultAll(env.rt, muts, env.builders), 0);
    if ms.None? then [] else ms.value
  }

  lemma WrittenAloneStep(env: Env, muts: map<AccountCreate, Mutation>, i: nat)
    requires Configured(env, muts) && i < |env.builders|
    ensures |WrittenAlone(env, muts, i)|
         == (if SavedAlone(env, muts, i) then 1 else 0) + |WrittenAlone(env, muts, i + 1)|
  {
  }

  lemma {:induction false} WrittenAloneSize(env: Env, muts: map<AccountCreate, Mutation>, i: nat)
    requires Configured(env, muts) && i <= |env.builders|
    ensures |WrittenAlone(env, muts, i)| <= |env.builders| - i
    ensures |WrittenAlone(env, muts, i)| == |env.builders| - i <==> SavedAloneFrom(env, muts, i)
    decreases |env.builders| - i
  {
    if i < |env.builders| {
      WrittenAloneSize(env, muts, i + 1);
      WrittenAloneStep(env, muts, i);
      SavedAloneFromStep(env, muts, i);
    }
  }

  lemma {:induction false} WrittenAloneRows(env: Env, muts: map<AccountCreate, Mutation>, i: nat)
    requires Configured(env, muts) && i <= |env.builders| && SavedAloneFrom(env, muts, i)
    ensures SingleSaves(env, muts, i) == Some(WrittenAlone(env, muts, i))
    decreases |env.builders| - i
  {
    if i < |env.builders| {
      SavedAloneFromStep(env, muts, i);
      WrittenAloneRows(env, muts, i + 1);
    }
  }

  ghost predicate NoneSavedFrom(env: Env, muts: map<AccountCreate, Mutation>, i: nat)
    requires Configured(env, muts)
  {
    forall k :: i <= k < |env.builders| ==> !SavedAlone(env, muts, k)
  }

  lemma {:induction false} NothingWrittenAlone(env: Env, muts: map<AccountCreate, Mutation>, i: nat)
    requires Configured(env, muts) && i <= |env.builders|
    ensures WrittenAlone(env, muts, i) == [] <==> NoneSavedFrom(env, muts, i)
    decreases |env.builders| - i
  {
    if i < |env.builders| {
      NothingWrittenAlone(env, muts, i + 1);
      assert NoneSavedFrom(env, muts, i) <==> !SavedAlone(env, muts, i) && NoneSavedFrom(env, muts, i + 1);
    }
  }

  /** Some builder's hooks call on with a mutation a single save would write. */
  ghost predicate SomePassesAlone(env: Env, muts: map<AccountCreate, Mutation>)
    requires Configured(env, muts)
  {
    exists k :: 0 <= k < |env.builders| && CallsOnAt(env, muts, k) && HandedOnPassesAt(env, muts, k)
  }

  /**
   * Exactly when: a bulk save of distinct builders hands the database the rows their
   * single saves would. If bulk inserts at all, the mutations handed on must all pass
   * `check` and no `defaults` have failed; if not, no builder may pass alone.
   */
  lemma BulkVersusSingle(env: Env, muts: map<AccountCreate, Mutation>)
    requires Configured(env, muts)
    ensures WrittenInBulk(env, muts) == WrittenAlone(env, muts, 0) <==>
            if AllCallOn(env, muts) && OwnPass(env, muts) then HandedOnPass(env, muts)
            else !SomePassesAlone(env, muts)
  {
    DefaultAllEach(env.rt, muts, env.builders);
    AcceptedEach(env, muts, DefaultAll(env.rt, muts, env.builders), 0);
    Verdicts(env, muts);
    if AllLetThrough(env, muts) {
      WrittenAloneSize(env, muts, 0);
      if SavedAloneFrom(env, muts, 0) {
        WrittenAloneRows(env, muts, 0);
        SingleSavesValue(env, muts, 0);
      }
    } else {
      NothingWrittenAlone(env, muts, 0);
      NonePassAlone(env, muts);
    }
  }

  lemma NonePassAlone(env: Env, muts: map<AccountCreate, Mutation>)
    requires Configured(env, muts)
    ensures NoneSavedFrom(env, muts, 0) <==> !SomePassesAlone(env, muts)
  {
    forall k | 0 <= k < |env.builders|
      ensures SavedAlone(env, muts, k) <==> CallsOnAt(env, muts, k) && HandedOnPassesAt(env, muts, k)
    {
    }
  }

  // ------------------------------------------------------- checked, or not

  predicate Replaces(h: Hook, m: Mutation) {
    h.before(m).Replace?
  }

  ghost predicate NeverReplaces(hooks: seq<Hook>) {
    forall j, m :: 0 <= j < |hooks| ==> !Replaces(hooks[j], m)
  }

  lemma {:induction false} SameMutationThrough(hooks: seq<Hook>, j: nat, m: Mutation)
    requires j <= |hooks| && NeverReplaces(hooks)
    ensures var t := Through(hooks, j, m, m, true); t.Some? ==> t.value.0 == t.value.1
    decreases |hooks| - j
  {
    if j < |hooks| {
      assert !Replaces(hooks[j], m);
      if hooks[j].before(m).Call? {
        SameMutationThrough(hooks, j + 1, hooks[j].before(m).m);
      }
    }
  }

  ghost predicate AllChecked(rt: Runtime, ms: seq<Mutation>) {
    forall k :: 0 <= k < |ms| ==> PassesCheck(rt, ms[k])
  }

  lemma AllCheckedCons(rt: Runtime, m: Mutation, rest: seq<Mutation>)
    requires PassesCheck(rt, m) && AllChecked(rt, rest)
    ensures AllChecked(rt, [m] + rest)
  {
    forall k | 0 <= k < |rest| + 1
      ensures PassesCheck(rt, ([m] + rest)[k])
    {
      if k > 0 {
        assert ([m] + rest)[k] == rest[k - 1];
      }
    }
  }

  /** If no hook hands on a mutation of its own, everything a bulk save writes has been checked. */
  lemma {:induction false} WrittenIsChecked(env: Env, muts: map<AccountCreate, Mutation>, i: nat)
    requires forall b :: b in env.builders ==> b in muts && NeverReplaces(b.hooks)
    ensures Accepted(env, muts, i).Some? ==> AllChecked(env.rt, Accepted(env, muts, i).value)
    decreases if i < |env.builders| then |env.builders| - i else 0
  {
    if i < |env.builders| {
      var b := env.builders[i];
      var t := Through(b.hooks, 0, muts[b], muts[b], true);
      SameMutationThrough(b.hooks, 0, muts[b]);
      if t.Some? {
        var after := muts[b := t.value.1];
        WrittenIsChecked(env, after, i + 1);
        if PassesCheck(env.rt, t.value.0) && Accepted(env, after, i + 1).Some? {
          AllCheckedCons(env.rt, t.value.1, Accepted(env, after, i + 1).value);
        }
      }
    }
  }

  /** A hook that hands on a bad mutation gets it written in bulk, where a single save refuses it. */
  lemma ReplacingHookEscapesCheck(env: Env, muts: map<AccountCreate, Mutation>, b: AccountCreate,
                                  h: Hook, bad: Mutation)
    requires env.builders == [b] && b in muts && b.hooks == [h]
    requires h.before(Defaulted(env.rt, muts[b])) == Replace(bad)
    requires PassesCheck(env.rt, Defaulted(env.rt, muts[b])) && !PassesCheck(env.rt, bad)
    ensures Accepted(env, DefaultAll(env.rt, muts, env.builders), 0) == Some([bad])
    ensures SingleSaves(env, muts, 0) == None
  {
    ReplacedThrough(b.hooks, h, Defaulted(env.rt, muts[b]), bad);
    OneBuilder(env, muts, b);
  }

  lemma ReplacedThrough(hooks: seq<Hook>, h: Hook, m: Mutation, bad: Mutation)
    requires hooks == [h] && h.before(m) == Replace(bad)
    ensures Through(hooks, 0, m, m, true) == Some((m, bad))
  {
  }

  lemma OneBuilder(env: Env, muts: map<AccountCreate, Mutation>, b: AccountCreate)
    requires env.builders == [b] && b in muts
    ensures Configured(env, muts)
    ensures Accepted(env, DefaultAll(env.rt, muts, env.builders), 0) ==
            if LetsThrough(env.rt, b.hooks, muts[b]) then Some([Reached(env.rt, b.hooks, muts[b]).value.1]) else None
    ensures SingleSaves(env, muts, 0) ==
            var one := SingleSave(env.rt, b.hooks, muts[b]); if one.None? then None else Some([one.value])
  {
    DefaultAllEach(env.rt, muts, env.builders);
    AcceptedEach(env, muts, DefaultAll(env.rt, muts, env.builders), 0);
    assert BuilderLetsThrough(env, muts, 0) <==> LetsThrough(env.rt, b.hooks, muts[b]);
    if LetsThrough(env.rt, b.hooks, muts[b]) {
      var handedOn := Reached(env.rt, b.hooks, muts[b]).value.1;
      assert HandedOn(env, muts, 0) == [handedOn] + [] == [handedOn];
    }
    assert SingleSaves(env, muts, 1) == Some([]);
    assert SavedAlone(env, muts, 0) ==> [SingleSave(env.rt, b.hooks, muts[b]).value] + []
                                        == [SingleSave(env.rt, b.hooks, muts[b]).value];
  }

  // ------------------------------------------------------- failed defaults

  /** On some mutation, `h` fills in column `c` in place. */
  ghost predicate Supplies(h: Hook, c: Column) {
    exists m :: h.before(m).Call? && c !in m.fields && c in h.before(m).m.fields
  }

  lemma {:induction false} NeverSupplied(hooks: seq<Hook>, j: nat, own: Mutation, m: Mutation, same: bool, c: Column)
    requires j <= |hooks| && c !in own.fields && (same ==> own == m)
    requires forall k :: j <= k < |hooks| ==> !Supplies(hooks[k], c)
    ensures var t := Through(hooks, j, own, m, same); t.Some? ==> c !in t.value.0.fields
    decreases |hooks| - j
  {
    if j < |hooks| {
      assert !Supplies(hooks[j], c);
      match hooks[j].before(m) {
        case Veto(_) =>
        case Answer =>
        case Call(d) =>
          NeverSupplied(hooks, j + 1, if same then d else own, d, same, c);
        case Replace(d) =>
          NeverSupplied(hooks, j + 1, own, d, false, c);
      }
    }
  }

  /** `defaults` fails on a column that is required and stays unset. */
  lemma {:induction false} FailedColumnIsUnset(rt: Runtime, m: Mutation, i: nat)
    requires i <= |DEFAULTED| && FillFrom(rt, m, i).1.Some?
    ensures FillFrom(rt, m, i).1.value !in FillFrom(rt, m, i).0.fields && FillFrom(rt, m, i).1.value in DEFAULTED
    decreases |DEFAULTED| - i
  {
    var c := DEFAULTED[i];
    assert c in DEFAULTED;
    if c in m.fields {
      FailedColumnIsUnset(rt, m, i + 1);
    } else if c in rt.defaults {
      FailedColumnIsUnset(rt, m.(fields := m.fields[c := rt.defaults[c]]), i + 1);
    }
  }

  lemma CheckNeedsDefaulted(rt: Runtime, m: Mutation, c: Column)
    requires PassesCheck(rt, m) && c in DEFAULTED
    ensures c in m.fields
  {
    CheckedByColumns(rt, m);
    RequiredColumns();
  }

  /**
   * A builder whose `defaults` failed lets a bulk save pass only if one of its hooks
   * supplies the missing column in place.
   */
  lemma FailedDefaultsNeedAHook(rt: Runtime, hooks: seq<Hook>, m: Mutation)
    requires Failed(rt, m).Some?
    ensures LetsThrough(rt, hooks, m) ==> Failed(rt, m).value in Reached(rt, hooks, m).value.0.fields
    ensures (forall j :: 0 <= j < |hooks| ==> !Supplies(hooks[j], Failed(rt, m).value)) ==> !LetsThrough(rt, hooks, m)
  {
    var c := Failed(rt, m).value;
    FailedColumnIsUnset(rt, m, 0);
    if LetsThrough(rt, hooks, m) {
      CheckNeedsDefaulted(rt, Reached(rt, hooks, m).value.0, c);
    }
    if forall j :: 0 <= j < |hooks| ==> !Supplies(hooks[j], c) {
      NeverSupplied(hooks, 0, Defaulted(rt, m), Defaulted(rt, m), true, c);
    }
  }

  /** With one hook: exactly when it edits the mutation in place into one that passes `check`. */
  lemma OneHookDecides(rt: Runtime, h: Hook, m: Mutation)
    requires Failed(rt, m).Some?
    ensures LetsThrough(rt, [h], m) <==>
            h.before(Defaulted(rt, m)).Call? && PassesCheck(rt, h.before(Defaulted(rt, m)).m)
  {
    FailedDefaultsNeedAHook(rt, [h], m);
    FailedColumnIsUnset(rt, m, 0);
    match h.before(Defaulted(rt, m)) {
      case Call(d) =>
        CalledThrough([h], h, Defaulted(rt, m), d);
      case Replace(d) =>
        ReplacedThrough([h], h, Defaulted(rt, m), d);
      case _ =>
    }
  }

  /** The state `Save` starts its chain in, from the state before the defaults pass. */
  ghost function AfterDefaults(env: Env, w: World): World
    requires Shaped(env, w)
  {
    w.(muts := DefaultAll(env.rt, w.muts, env.builders))
  }

  /** A bulk save of distinct builders inserts exactly when every builder lets it through. */
  lemma InsertsWhenAllLetThrough(env: Env, w: World)
    requires Fresh(env, w) && Configured(env, w.muts) && env.builders != []
    ensures RunChain(env, AfterDefaults(env, w)).0.writes != [] <==> AllLetThrough(env, w.muts)
    ensures Accepted(env, AfterDefaults(env, w).muts, 0).Some? <==> AllLetThrough(env, w.muts)
  {
    var w0 := AfterDefaults(env, w);
    DefaultAllEach(env.rt, w.muts, env.builders);
    AcceptedEach(env, w.muts, w0.muts, 0);
    OneWriteOrNone(env, w0, 0, 0, w0.muts[env.builders[0]], true);
  }

  /** ... and what it inserts are the rows compared with single saves above. */
  lemma InsertsTheRows(env: Env, w: World)
    requires Fresh(env, w) && Configured(env, w.muts) && env.builders != []
    ensures RunChain(env, AfterDefaults(env, w)).0.writes ==
            if AllLetThrough(env, w.muts) then [SpecsOf(WrittenInBulk(env, w.muts))] else []
  {
    var w0 := AfterDefaults(env, w);
    InsertsWhenAllLetThrough(env, w);
    DefaultAllEach(env.rt, w.muts, env.builders);
    OneWriteOrNone(env, w0, 0, 0, w0.muts[env.builders[0]], true);
    var rows := WrittenInBulk(env, w.muts);
    assert w0.specs[..0] + SpecsOf(rows) == SpecsOf(rows);
  }

  /** No hook of builder `x` supplies the column its `defaults` missed. */
  ghost predicate Unsupplied(env: Env, muts: map<AccountCreate, Mutation>, x: nat)
    requires Configured(env, muts) && x < |env.builders| && Failed(env.rt, muts[env.builders[x]]).Some?
  {
    var b := env.builders[x];
    forall j :: 0 <= j < |b.hooks| ==> !Supplies(b.hooks[j], Failed(env.rt, muts[b]).value)
  }

  /**
   * Main result: in bulk a failed `defaults` does not stop the save by itself. Nothing is
   * inserted if no hook of that builder supplies the missing column, and with honest
   * hooks the save then fails with nothing done. In general, with every other builder
   * letting the save through, it stops exactly when one of the builder's hooks refuses or
   * its hooks leave it a mutation that fails `check`.
   */
  lemma FailedDefaultsInBulk(env: Env, w: World, x: nat)
    requires Fresh(env, w) && Configured(env, w.muts) && x < |env.builders|
    requires Failed(env.rt, w.muts[env.builders[x]]).Some?
    ensures var (w', o) := RunChain(env, AfterDefaults(env, w));
            && (Unsupplied(env, w.muts, x) ==> w'.writes == [])
            && (Unsupplied(env, w.muts, x) && AllHonest(env) ==> o.Failure? && DoneFrom(w', 0, |env.builders|))
            && ((forall y :: 0 <= y < |env.builders| && y != x ==> BuilderLetsThrough(env, w.muts, y)) ==>
                  (w'.writes == [] <==> !(CallsOnAt(env, w.muts, x) && OwnPassesAt(env, w.muts, x))))
  {
    var b := env.builders[x];
    InsertsWhenAllLetThrough(env, w);
    FailedDefaultsNeedAHook(env.rt, b.hooks, w.muts[b]);
    assert BuilderLetsThrough(env, w.muts, x) <==> CallsOnAt(env, w.muts, x) && OwnPassesAt(env, w.muts, x);
    if Unsupplied(env, w.muts, x) {
      assert !BuilderLetsThrough(env, w.muts, x);
      if AllHonest(env) {
        var k := SaveIsAllOrNothing(env, AfterDefaults(env, w));
      }
    }
  }

  lemma CalledThrough(hooks: seq<Hook>, h: Hook, m: Mutation, d: Mutation)
    requires hooks == [h] && h.before(m) == Call(d)
    ensures Through(hooks, 0, m, m, true) == Some((d, d))
  {
  }

  /** The failing case: a hook that fills the mutation in itself gets it written in bulk; a single save refuses. */
  lemma HookStandsInForDefaults(env: Env, w: World, b: AccountCreate, h: Hook, good: Mutation)
    requires Fresh(env, w) && env.builders == [b] && b in w.muts && b.hooks == [h]
    requires Failed(env.rt, w.muts[b]).Some? && h.before(Defaulted(env.rt, w.muts[b])) == Call(good)
    requires PassesCheck(env.rt, good)
    ensures RunChain(env, AfterDefaults(env, w)).0.writes == [SpecsOf([good])]
    ensures SingleSaves(env, w.muts, 0) == None
  {
    OneBuilder(env, w.muts, b);
    CalledThrough(b.hooks, h, Defaulted(env.rt, w.muts[b]), good);
    var w0 := AfterDefaults(env, w);
    OneWriteOrNone(env, w0, 0, 0, w0.muts[b], true);
    assert w0.specs[..0] + SpecsOf([good]) == SpecsOf([good]);
  }

  // No default was installed, and every validator accepts.
  const NOTHING_INSTALLED := Runtime(map[], v => true, v => true, v => true, v => true, v => true)

  const UNSET := Mutation(map[], None, None)

  const ALL_REQUIRED := Mutation(
    map[CreatedAt := TimeValue(1), UpdatedAt := TimeValue(1), Name := StringValue("a"), Platform := StringValue("p"),
        Type := StringValue("t"), Credentials := JsonValue(JsonNull), Extra := JsonValue(JsonNull),
        Concurrency := IntValue(1), Priority := IntValue(1), RateMultiplier := FloatValue(1.0),
        Status := StringValue("active"), AutoPauseOnExpired := BoolValue(true), Schedulable := BoolValue(true),
        QuotaDimension := StringValue("global")],
    None, None)

  lemma NothingIsDefaulted()
    ensures FillFrom(NOTHING_INSTALLED, UNSET, 0) == (UNSET, Some(CreatedAt))
  {
    assert DEFAULTED[0] == CreatedAt;
  }

  lemma AllRequiredIsSet()
    ensures AllSet(ALL_REQUIRED, REQUIRED)
  {
  }

  lemma AllRequiredPasses()
    ensures PassesCheck(NOTHING_INSTALLED, ALL_REQUIRED)
  {
    AllRequiredIsSet();
    CheckedByColumns(NOTHING_INSTALLED, ALL_REQUIRED);
  }

  /** Such an input exists: `created_at` unset, its default not installed, one hook setting every required column. */
  lemma SuchAHookExists(h: Hook)
    requires h.before(UNSET) == Call(ALL_REQUIRED)
    ensures Failed(NOTHING_INSTALLED, UNSET) == Some(CreatedAt)
    ensures LetsThrough(NOTHING_INSTALLED, [h], UNSET) && SingleSave(NOTHING_INSTALLED, [h], UNSET) == None
  {
    NothingIsDefaulted();
    CalledThrough([h], h, UNSET, ALL_REQUIRED);
    AllRequiredPasses();
  }

  lemma {:induction false} NothingToFill(rt: Runtime, m: Mutation, i: nat)
    requires i <= |DEFAULTED| && AllSet(m, DEFAULTED)
    ensures FillFrom(rt, m, i) == (m, None)
    decreases |DEFAULTED| - i
  {
    if i < |DEFAULTED| {
      assert DEFAULTED[i] in DEFAULTED;
      NothingToFill(rt, m, i + 1);
    }
  }

  lemma AllRequiredIsComplete()
    ensures Failed(NOTHING_INSTALLED, ALL_REQUIRED) == None && Defaulted(NOTHING_INSTALLED, ALL_REQUIRED) == ALL_REQUIRED
  {
    AllRequiredIsSet();
    RequiredColumns();
    NothingToFill(NOTHING_INSTALLED, ALL_REQUIRED, 0);
  }

  lemma NoHooks(m: Mutation)
    ensures Through([], 0, m, m, true) == Some((m, m))
  {
  }

  lemma UnsetFails()
    ensures !PassesCheck(NOTHING_INSTALLED, UNSET)
  {
    if PassesCheck(NOTHING_INSTALLED, UNSET) {
      assert DEFAULTED[0] == CreatedAt;
      CheckNeedsDefaulted(NOTHING_INSTALLED, UNSET, CreatedAt);
    }
  }

  lemma CompleteAlone()
    ensures SingleSave(NOTHING_INSTALLED, [], ALL_REQUIRED) == Some(ALL_REQUIRED)
  {
    AllRequiredIsComplete();
    AllRequiredPasses();
    NoHooks(ALL_REQUIRED);
  }

  lemma UnsetAlone()
    ensures SingleSave(NOTHING_INSTALLED, [], UNSET) == None && !LetsThrough(NOTHING_INSTALLED, [], UNSET)
  {
    NothingIsDefaulted();
    UnsetFails();
    NoHooks(UNSET);
  }

  /** One builder that does not let the chain pass costs all of them their rows. */
  lemma NothingInBulk(env: Env, muts: map<AccountCreate, Mutation>, k: nat)
    requires Configured(env, muts) && k < |env.builders|
    ensures !BuilderLetsThrough(env, muts, k) ==> WrittenInBulk(env, muts) == []
  {
    DefaultAllEach(env.rt, muts, env.builders);
    AcceptedEach(env, muts, DefaultAll(env.rt, muts, env.builders), 0);
  }

  lemma RowsOfTwo(env: Env, muts: map<AccountCreate, Mutation>)
    requires Configured(env, muts) && |env.builders| == 2
    ensures WrittenAlone(env, muts, 0) == RowAlone(env, muts, 0) + RowAlone(env, muts, 1)
  {
    assert WrittenAlone(env, muts, 2) == [];
    assert WrittenAlone(env, muts, 1) == RowAlone(env, muts, 1);
  }

  ghost function RowAlone(env: Env, muts: map<AccountCreate, Mutation>, k: nat): seq<Mutation>
    requires Configured(env, muts) && k < |env.builders|
  {
    var b := env.builders[k];
    var one := SingleSave(env.rt, b.hooks, muts[b]);
    if one.None? then [] else [one.value]
  }

  /** Bulk is all or nothing: of two builders without hooks, the incomplete one costs the complete one its row. */
  lemma BadBuilderCostsTheOthers(env: Env, muts: map<AccountCreate, Mutation>, good: AccountCreate, bad: AccountCreate)
    requires env.builders == [good, bad] && good != bad && good.hooks == [] && bad.hooks == []
    requires env.rt == NOTHING_INSTALLED && muts == map[good := ALL_REQUIRED, bad := UNSET]
    ensures Configured(env, muts)
    ensures WrittenInBulk(env, muts) == [] && WrittenAlone(env, muts, 0) == [ALL_REQUIRED]
  {
    CompleteAlone();
    UnsetAlone();
    NothingInBulk(env, muts, 1);
    RowsOfTwo(env, muts);
  }
}
