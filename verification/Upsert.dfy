// What an upsert does to an existing account row: the conflict options that
// `AccountUpsertOne`, `AccountUpsertBulk` and `AccountUpsert` of
// backend/ent/account_create.go collect, resolved when the insert finally runs.
module Upsert {
  import opened Prelude
  import opened AccountColumns
  import opened AccountCreation

  // What an UPDATE SET clause assigns to a column.
  datatype Change = ToProposed | ToItself | ToValue(v: Value) | ToNull | Plus(v: Value)

  // The typed setters of `AccountUpsert`: set, take the proposed value, clear, add.
  datatype Setter = SetTo(c: Column, v: Value) | UpdateTo(c: Column) | Clear(c: Column) | AddTo(c: Column, v: Value)

  // One configuration call on an upsert builder.
  datatype Call = UpdateNewValues | Ignore | Update(setters: seq<Setter>)

  // One conflict option as stored. `KeepCreatedAt` is the deferred resolver that
  // `UpdateNewValues` appends right after `ResolveWithNewValues`.
  datatype ConflictOption = ResolveWithNewValues | ResolveWithIgnore | KeepCreatedAt | ResolveWith(setters: seq<Setter>)

  const NULLABLE: seq<Column> := [
    DeletedAt, Notes, ProxyID, ProxyFallbackOriginID, LoadFactor, ErrorMessage, LastUsedAt, ExpiresAt,
    RateLimitedAt, RateLimitResetAt, OverloadUntil, TempUnschedulableUntil, TempUnschedulableReason,
    SessionWindowStart, SessionWindowEnd, SessionWindowStatus, ParentAccountID]

  const NUMERIC: seq<Column> := [ProxyFallbackOriginID, Concurrency, LoadFactor, Priority, RateMultiplier]

  /** The setters `AccountUpsert` offers: none names `id` or the immutable `created_at`. */
  predicate Offered(s: Setter) {
    match s
    case SetTo(c, _) => c != ID && c != CreatedAt && !c.Unknown?
    case UpdateTo(c) => c != ID && c != CreatedAt && !c.Unknown?
    case Clear(c) => c in NULLABLE
    case AddTo(c, _) => c in NUMERIC
  }

  predicate Typed(call: Call) {
    call.Update? ==> forall i :: 0 <= i < |call.setters| ==> Offered(call.setters[i])
  }

  function SetterChange(s: Setter): Change {
    match s
    case SetTo(_, v) => ToValue(v)
    case UpdateTo(_) => ToProposed
    case Clear(_) => ToNull
    case AddTo(_, v) => Plus(v)
  }

  /** The options a call appends to the builder's conflict list. */
  function OptionsOf(call: Call): seq<ConflictOption> {
    match call
    case UpdateNewValues => [ResolveWithNewValues, KeepCreatedAt]
    case Ignore => [ResolveWithIgnore]
    case Update(setters) => [ResolveWith(setters)]
  }

  function AllOptions(calls: seq<Call>): seq<ConflictOption> {
    if calls == [] then [] else AllOptions(calls[..|calls| - 1]) + OptionsOf(calls[|calls| - 1])
  }

  // -------------------------------------------------------------- resolution

  /** Whether any of the rows to insert sets `c`. */
  predicate Inserted(muts: seq<Mutation>, c: Column) {
    exists i :: 0 <= i < |muts| && c in muts[i].fields
  }

  function ApplySetters(sets: map<Column, Change>, setters: seq<Setter>): map<Column, Change> {
    if setters == [] then sets
    else
      var s := setters[|setters| - 1];
      ApplySetters(sets, setters[..|setters| - 1])[s.c := SetterChange(s)]
  }

  /** One option applied to the SET clause built so far; a later assignment replaces an earlier one. */
  function ApplyOption(sets: map<Column, Change>, columns: seq<Column>, muts: seq<Mutation>, o: ConflictOption)
    : map<Column, Change>
  {
    match o
    case ResolveWithNewValues => sets + map c | c in columns :: ToProposed
    case ResolveWithIgnore => sets + map c | c in columns :: ToItself
    case KeepCreatedAt => if Inserted(muts, CreatedAt) then sets[CreatedAt := ToItself] else sets
    case ResolveWith(setters) => ApplySetters(sets, setters)
  }

  function Resolve(columns: seq<Column>, muts: seq<Mutation>, os: seq<ConflictOption>): map<Column, Change> {
    if os == [] then map[]
    else ApplyOption(Resolve(columns, muts, os[..|os| - 1]), columns, muts, os[|os| - 1])
  }

  class UpdateSet {
    const columns: seq<Column>
    var sets: map<Column, Change>

    constructor (columns: seq<Column>)
      ensures this.columns == columns && sets == map[]
    {
      this.columns, sets := columns, map[];
    }

    method SetAll(change: Change)
      modifies this
      ensures sets == old(sets) + map c | c in columns :: change
    {
      for i := 0 to |columns|
        invariant sets == old(sets) + map c | c in columns[..i] :: change
      {
        TakeSnoc(columns, i);
        sets := sets[columns[i] := change];
      }
      assert columns[..|columns|] == columns;
    }

    /** The resolver of the bulk form, which looks at every builder's mutation. */
    method IgnoreCreatedAt(muts: seq<Mutation>)
      modifies this
      ensures sets == ApplyOption(old(sets), columns, muts, KeepCreatedAt)
    {
      for i := 0 to |muts|
        invariant sets == if Inserted(muts[..i], CreatedAt) then old(sets)[CreatedAt := ToItself] else old(sets)
      {
        TakeSnoc(muts, i);
        assert Inserted(muts[..i + 1], CreatedAt) <==> Inserted(muts[..i], CreatedAt) || CreatedAt in muts[i].fields by {
          assert muts[..i + 1][i] == muts[i];
          assert forall k :: 0 <= k < i ==> muts[..i + 1][k] == muts[..i][k];
        }
        if CreatedAt in muts[i].fields {
          sets := sets[CreatedAt := ToItself];
        }
      }
      assert muts[..|muts|] == muts;
    }

    method ApplyTyped(setters: seq<Setter>)
      modifies this
      ensures sets == ApplySetters(old(sets), setters)
    {
      for i := 0 to |setters|
        invariant sets == ApplySetters(old(sets), setters[..i])
      {
        assert setters[..i + 1][..i] == setters[..i];
        sets := sets[setters[i].c := SetterChange(setters[i])];
      }
      assert setters[..|setters|] == setters;
    }

    /** Running the collected options when the insert statement is built. */
    method ResolveAll(muts: seq<Mutation>, os: seq<ConflictOption>)
      requires sets == map[]
      modifies this
      ensures sets == Resolve(columns, muts, os)
    {
      for i := 0 to |os|
        invariant sets == Resolve(columns, muts, os[..i])
      {
        assert os[..i + 1][..i] == os[..i];
        match os[i] {
          case ResolveWithNewValues => SetAll(ToProposed);
          case ResolveWithIgnore => SetAll(ToItself);
          case KeepCreatedAt => IgnoreCreatedAt(muts);
          case ResolveWith(setters) => ApplyTyped(setters);
        }
      }
      assert os[..|os|] == os;
    }
  }

  // -------------------------------------------------- the last call decides

  /** What one call alone says about column `c`. */
  function CallOn(call: Call, columns: seq<Column>, muts: seq<Mutation>, c: Column): Option<Change> {
    match call
    case UpdateNewValues =>
      if c == CreatedAt && Inserted(muts, CreatedAt) then Some(ToItself)
      else if c in columns then Some(ToProposed)
      else None
    case Ignore => if c in columns then Some(ToItself) else None
    case Update(setters) => LastSetter(setters, c)
  }

  function LastSetter(setters: seq<Setter>, c: Column): Option<Change> {
    if setters == [] then None
    else if setters[|setters| - 1].c == c then Some(SetterChange(setters[|setters| - 1]))
    else LastSetter(setters[..|setters| - 1], c)
  }

  /** The last call that says anything about `c` decides. */
  function Decided(calls: seq<Call>, columns: seq<Column>, muts: seq<Mutation>, c: Column): Option<Change> {
    if calls == [] then None
    else
      var last := CallOn(calls[|calls| - 1], columns, muts, c);
      if last.Some? then last else Decided(calls[..|calls| - 1], columns, muts, c)
  }

  function Lookup(sets: map<Column, Change>, c: Column): Option<Change> {
    if c in sets then Some(sets[c]) else None
  }

  lemma {:induction false} SettersDecide(sets: map<Column, Change>, setters: seq<Setter>, c: Column)
    ensures Lookup(ApplySetters(sets, setters), c)
         == if LastSetter(setters, c).Some? then LastSetter(setters, c) else Lookup(sets, c)
  {
    if setters != [] {
      SettersDecide(sets, setters[..|setters| - 1], c);
    }
  }

  lemma ResolveSnoc(columns: seq<Column>, muts: seq<Mutation>, os: seq<ConflictOption>, o: ConflictOption)
    ensures Resolve(columns, muts, os + [o]) == ApplyOption(Resolve(columns, muts, os), columns, muts, o)
  {
    assert (os + [o])[..|os|] == os;
  }

  /** The options of one call, applied to any set clause. */
  function ApplyCall(sets: map<Column, Change>, columns: seq<Column>, muts: seq<Mutation>, call: Call): map<Column, Change> {
    match call
    case UpdateNewValues => ApplyOption(ApplyOption(sets, columns, muts, ResolveWithNewValues), columns, muts, KeepCreatedAt)
    case Ignore => ApplyOption(sets, columns, muts, ResolveWithIgnore)
    case Update(setters) => ApplyOption(sets, columns, muts, ResolveWith(setters))
  }

  lemma CallDecides(sets: map<Column, Change>, columns: seq<Column>, muts: seq<Mutation>, call: Call, c: Column)
    ensures Lookup(ApplyCall(sets, columns, muts, call), c)
         == var said := CallOn(call, columns, muts, c);
            if said.Some? then said else Lookup(sets, c)
  {
    if call.Update? {
      SettersDecide(sets, call.setters, c);
    }
  }

  lemma ResolveCall(columns: seq<Column>, muts: seq<Mutation>, os: seq<ConflictOption>, call: Call)
    ensures Resolve(columns, muts, os + OptionsOf(call)) == ApplyCall(Resolve(columns, muts, os), columns, muts, call)
  {
    ResolveSnoc(columns, muts, os, OptionsOf(call)[0]);
    if call.UpdateNewValues? {
      ResolveSnoc(columns, muts, os + [ResolveWithNewValues], KeepCreatedAt);
      assert os + OptionsOf(call) == os + [ResolveWithNewValues] + [KeepCreatedAt];
    }
  }

  lemma ResolveAppend(columns: seq<Column>, muts: seq<Mutation>, os: seq<ConflictOption>, call: Call, c: Column)
    ensures Lookup(Resolve(columns, muts, os + OptionsOf(call)), c)
         == var said := CallOn(call, columns, muts, c);
            if said.Some? then said else Lookup(Resolve(columns, muts, os), c)
  {
    ResolveCall(columns, muts, os, call);
    CallDecides(Resolve(columns, muts, os), columns, muts, call, c);
  }

  /** Resolving the option list column by column: the last call that touches a column wins. */
  lemma {:induction false} LastCallWins(columns: seq<Column>, muts: seq<Mutation>, calls: seq<Call>, c: Column)
    ensures Lookup(Resolve(columns, muts, AllOptions(calls)), c) == Decided(calls, columns, muts, c)
  {
    if calls != [] {
      var init, last := calls[..|calls| - 1], calls[|calls| - 1];
      LastCallWins(columns, muts, init, c);
      ResolveAppend(columns, muts, AllOptions(init), last, c);
    }
  }

  // -------------------------------------------------- the cells that result

  /** `call` assigns something to column `c`. */
  ghost predicate Touches(call: Call, columns: seq<Column>, muts: seq<Mutation>, c: Column) {
    match call
    case UpdateNewValues => c in columns || (c == CreatedAt && exists i :: 0 <= i < |muts| && CreatedAt in muts[i].fields)
    case Ignore => c in columns
    case Update(setters) => exists i :: 0 <= i < |setters| && setters[i].c == c
  }

  ghost predicate NoneTouches(calls: seq<Call>, columns: seq<Column>, muts: seq<Mutation>, c: Column) {
    forall i :: 0 <= i < |calls| ==> !Touches(calls[i], columns, muts, c)
  }

  lemma {:induction false} LastSetterIs(setters: seq<Setter>, k: nat, c: Column)
    requires k < |setters| && setters[k].c == c && forall j :: k < j < |setters| ==> setters[j].c != c
    ensures LastSetter(setters, c) == Some(SetterChange(setters[k]))
  {
    if k < |setters| - 1 {
      LastSetterIs(setters[..|setters| - 1], k, c);
    }
  }

  lemma {:induction false} NoSetter(setters: seq<Setter>, c: Column)
    requires forall j :: 0 <= j < |setters| ==> setters[j].c != c
    ensures LastSetter(setters, c) == None
  {
    if setters != [] {
      NoSetter(setters[..|setters| - 1], c);
    }
  }

  lemma {:induction false} LaterCallsAreSilent(calls: seq<Call>, after: seq<Call>, columns: seq<Column>,
                                               muts: seq<Mutation>, c: Column)
    requires NoneTouches(after, columns, muts, c)
    ensures Decided(calls + after, columns, muts, c) == Decided(calls, columns, muts, c)
    decreases |after|
  {
    if after == [] {
      assert calls + after == calls;
    } else {
      var init, last := after[..|after| - 1], after[|after| - 1];
      assert (calls + after)[..|calls + after| - 1] == calls + init;
      LaterCallsAreSilent(calls, init, columns, muts, c);
      assert !Touches(last, columns, muts, c);
      if last.Update? {
        NoSetter(last.setters, c);
      }
    }
  }

  /** The set clause of `before`, then `last`, then calls that leave `c` alone, says of `c` what `last` says. */
  lemma LastOnColumn(before: seq<Call>, last: Call, after: seq<Call>, columns: seq<Column>, muts: seq<Mutation>, c: Column)
    requires NoneTouches(after, columns, muts, c) && CallOn(last, columns, muts, c).Some?
    ensures Lookup(Resolve(columns, muts, AllOptions(before + [last] + after)), c) == CallOn(last, columns, muts, c)
  {
    LastCallWins(columns, muts, before + [last] + after, c);
    LaterCallsAreSilent(before + [last], after, columns, muts, c);
  }

  function CellOf(row: Row, c: Column): Option<Value> {
    if c in row then Some(row[c]) else None
  }

  /**
   * Main result: whatever was said before, the last setter of a column decides the cell
   * that is stored if no later call touches the column.
   */
  lemma SetterDecidesCell(before: seq<Call>, setters: seq<Setter>, k: nat, after: seq<Call>, columns: seq<Column>,
                          muts: seq<Mutation>, existing: Row, proposed: Row, add: (Option<Value>, Value) -> Value)
    requires k < |setters| && forall j :: k < j < |setters| ==> setters[j].c != setters[k].c
    requires NoneTouches(after, columns, muts, setters[k].c)
    ensures var sets := Resolve(columns, muts, AllOptions(before + [Update(setters)] + after));
            var cell := UpdatedCell(sets, existing, proposed, setters[k].c, add);
            match setters[k]
            case SetTo(_, v) => cell == Some(v)
            case UpdateTo(c) => cell == CellOf(proposed, c)
            case Clear(_) => cell == None
            case AddTo(c, v) => cell == Some(add(CellOf(existing, c), v))
  {
    LastSetterIs(setters, k, setters[k].c);
    LastOnColumn(before, Update(setters), after, columns, muts, setters[k].c);
  }

  /** The same for the calls that speak about every inserted column, and for columns nobody touches. */
  lemma CallDecidesCell(before: seq<Call>, last: Call, after: seq<Call>, columns: seq<Column>, muts: seq<Mutation>,
                        c: Column, existing: Row, proposed: Row, add: (Option<Value>, Value) -> Value)
    requires NoneTouches(after, columns, muts, c)
    ensures var sets := Resolve(columns, muts, AllOptions(before + [last] + after));
            var cell := UpdatedCell(sets, existing, proposed, c, add);
            && (last.Ignore? && c in columns ==> cell == CellOf(existing, c))
            && (last.UpdateNewValues? && c in columns && c != CreatedAt ==> cell == CellOf(proposed, c))
            && (NoneTouches(before + [last], columns, muts, c) ==> cell == CellOf(existing, c))
  {
    if CallOn(last, columns, muts, c).Some? {
      LastOnColumn(before, last, after, columns, muts, c);
    }
    if NoneTouches(before + [last], columns, muts, c) {
      var calls := before + [last] + after;
      assert NoneTouches(calls, columns, muts, c);
      assert [] + calls == calls;
      LaterCallsAreSilent([], calls, columns, muts, c);
      LastCallWins(columns, muts, calls, c);
    }
  }

  // ------------------------------------------------- created_at is immutable

  /** `created_at` is among the inserted columns only if a resolver finds it set. */
  predicate Guarded(columns: seq<Column>, muts: seq<Mutation>) {
    CreatedAt in columns ==> Inserted(muts, CreatedAt)
  }

  /** A column named by a row's specification is set in its mutation, or is a foreign key. */
  lemma {:induction false} SpecFieldsAreSet(m: Mutation, order: seq<Column>)
    ensures forall i :: 0 <= i < |SpecFields(m, order)| ==> SpecFields(m, order)[i].column in m.fields
  {
    if order != [] {
      SpecFieldsAreSet(m, order[..|order| - 1]);
    }
  }

  // A stored or proposed row; an absent column is NULL.
  type Row = map<Column, Value>

  /** The value of column `c` after the conflicting row was updated. */
  function UpdatedCell(sets: map<Column, Change>, existing: Row, proposed: Row, c: Column,
                       add: (Option<Value>, Value) -> Value): Option<Value> {
    var was := if c in existing then Some(existing[c]) else None;
    if c !in sets then was
    else
      match sets[c]
      case ToProposed => if c in proposed then Some(proposed[c]) else None
      case ToItself => was
      case ToValue(v) => Some(v)
      case ToNull => None
      case Plus(v) => Some(add(was, v))
  }

  lemma {:induction false} TypedNeverNamesCreatedAt(setters: seq<Setter>)
    requires forall i :: 0 <= i < |setters| ==> Offered(setters[i])
    ensures LastSetter(setters, CreatedAt) == None
  {
    if setters != [] {
      assert Offered(setters[|setters| - 1]);
      TypedNeverNamesCreatedAt(setters[..|setters| - 1]);
    }
  }

  lemma {:induction false} CreatedAtDecided(calls: seq<Call>, columns: seq<Column>, muts: seq<Mutation>)
    requires Guarded(columns, muts) && forall i :: 0 <= i < |calls| ==> Typed(calls[i])
    ensures Decided(calls, columns, muts, CreatedAt) in {None, Some(ToItself)}
  {
    if calls != [] {
      CreatedAtDecided(calls[..|calls| - 1], columns, muts);
      assert Typed(calls[|calls| - 1]);
      if calls[|calls| - 1].Update? {
        TypedNeverNamesCreatedAt(calls[|calls| - 1].setters);
      }
    }
  }

  /** The creation time a conflicting row keeps is the one it had. */
  ghost predicate KeepsCreatedAt(sets: map<Column, Change>, existing: Row, proposed: Row,
                                 add: (Option<Value>, Value) -> Value) {
    UpdatedCell(sets, existing, proposed, CreatedAt, add)
    == if CreatedAt in existing then Some(existing[CreatedAt]) else None
  }

  /**
   * For any existing and proposed row and any sequence of `UpdateNewValues`, `Ignore` and
   * typed setter calls, the stored creation time stays, if the resolvers find it set
   * whenever it is inserted.
   */
  lemma CreatedAtIsKept(calls: seq<Call>, columns: seq<Column>, muts: seq<Mutation>, existing: Row, proposed: Row,
                        add: (Option<Value>, Value) -> Value)
    requires Guarded(columns, muts) && forall i :: 0 <= i < |calls| ==> Typed(calls[i])
    ensures KeepsCreatedAt(Resolve(columns, muts, AllOptions(calls)), existing, proposed, add)
  {
    LastCallWins(columns, muts, calls, CreatedAt);
    CreatedAtDecided(calls, columns, muts);
  }

  /** Every typed call sequence keeps every creation time. */
  ghost predicate AlwaysKept(columns: seq<Column>, muts: seq<Mutation>) {
    forall calls: seq<Call>, existing: Row, proposed: Row, add: (Option<Value>, Value) -> Value ::
      (forall i :: 0 <= i < |calls| ==> Typed(calls[i])) ==>
        KeepsCreatedAt(Resolve(columns, muts, AllOptions(calls)), existing, proposed, add)
  }

  /** Exactly when: a single `UpdateNewValues` overwrites the creation time if the resolvers do not find it set. */
  lemma CreatedAtExact(columns: seq<Column>, muts: seq<Mutation>)
    ensures AlwaysKept(columns, muts) <==> Guarded(columns, muts)
  {
    if Guarded(columns, muts) {
      forall calls: seq<Call>, existing: Row, proposed: Row, add: (Option<Value>, Value) -> Value
        | forall i :: 0 <= i < |calls| ==> Typed(calls[i])
        ensures KeepsCreatedAt(Resolve(columns, muts, AllOptions(calls)), existing, proposed, add)
      {
        CreatedAtIsKept(calls, columns, muts, existing, proposed, add);
      }
    } else {
      var calls := [UpdateNewValues];
      var existing: Row, proposed: Row := map[CreatedAt := TimeValue(0)], map[CreatedAt := TimeValue(1)];
      LastCallWins(columns, muts, calls, CreatedAt);
      assert Typed(calls[0]);
      assert Decided(calls, columns, muts, CreatedAt) == Some(ToProposed);
      assert !KeepsCreatedAt(Resolve(columns, muts, AllOptions(calls)), existing, proposed, (was, v) => v);
    }
  }

  /**
   * The comments on `UpdateNewValues` call it equivalent to passing `ResolveWithNewValues`
   * alone. The two set clauses are equal exactly when no row sets `created_at`.
   */
  lemma NotJustNewValues(columns: seq<Column>, muts: seq<Mutation>)
    ensures Resolve(columns, muts, AllOptions([UpdateNewValues])) == Resolve(columns, muts, [ResolveWithNewValues])
       <==> !Inserted(muts, CreatedAt)
  {
    var call, one, two := [UpdateNewValues], [ResolveWithNewValues], [ResolveWithNewValues, KeepCreatedAt];
    assert call[..|call| - 1] == [] && one[..|one| - 1] == [] && two[..|two| - 1] == one;
    assert AllOptions(call) == [] + OptionsOf(call[0]) == two;
    var plain, kept := Resolve(columns, muts, one), Resolve(columns, muts, two);
    assert Resolve(columns, muts, []) == map[];
    assert plain == ApplyOption(map[], columns, muts, one[0]);
    assert kept == ApplyOption(plain, columns, muts, two[1]);
    assert CreatedAt !in plain || plain[CreatedAt] == ToProposed;
  }
}
