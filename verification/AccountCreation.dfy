// One account on its way into the database and back: `defaults`, `check` and
// `createSpec` of backend/ent/account_create.go, then `scanValues` and
// `assignValues` of backend/ent/account.go.
module AccountCreation {
  import opened Prelude
  import opened Picking
  import opened AccountColumns

  datatype Json = JsonNull | JsonObject(entries: map<string, string>)

  // A field value as Go's static types have it.
  datatype Value =
    | TimeValue(t: int) | StringValue(s: string) | IntValue(i: int) | FloatValue(f: real)
    | BoolValue(b: bool) | JsonValue(j: Json)

  datatype FieldType = TypeTime | TypeString | TypeInt | TypeInt64 | TypeFloat64 | TypeBool | TypeJSON | TypeEnum

  // The values set on a mutation, plus its two many-to-one edges.
  datatype Mutation = Mutation(fields: map<Column, Value>, proxy: Option<int>, parent: Option<int>)

  // ------------------------------------------------------- defaults, check

  // What the runtime package installs. A column missing from `defaults` is a default
  // function left nil because the package was never imported.
  datatype Runtime = Runtime(
    defaults: map<Column, Value>,
    nameValidator: Value -> bool, platformValidator: Value -> bool, typeValidator: Value -> bool,
    statusValidator: Value -> bool, sessionWindowStatusValidator: Value -> bool)

  const DEFAULTED: seq<Column> := [
    CreatedAt, UpdatedAt, Credentials, Extra, Concurrency, Priority, RateMultiplier, Status,
    AutoPauseOnExpired, Schedulable, QuotaDimension]

  const REQUIRED: seq<Column> := [
    CreatedAt, UpdatedAt, Name, Platform, Type, Credentials, Extra, Concurrency, Priority,
    RateMultiplier, Status, AutoPauseOnExpired, Schedulable, QuotaDimension]

  // The order in which `check` looks at columns; the session window status is optional.
  const CHECKED: seq<Column> := [
    CreatedAt, UpdatedAt, Name, Platform, Type, Credentials, Extra, Concurrency, Priority,
    RateMultiplier, Status, AutoPauseOnExpired, Schedulable, SessionWindowStatus, QuotaDimension]

  /** The validator `check` runs on a column that is set. */
  predicate Acceptable(rt: Runtime, c: Column, v: Value) {
    match c
    case Name => rt.nameValidator(v)
    case Platform => rt.platformValidator(v)
    case Type => rt.typeValidator(v)
    case Status => rt.statusValidator(v)
    case SessionWindowStatus => rt.sessionWindowStatusValidator(v)
    case QuotaDimension => v == StringValue("global") || v == StringValue("spark")
    case _ => true
  }

  datatype CheckError = Missing(column: Column) | Invalid(column: Column)

  function CheckColumn(rt: Runtime, m: Mutation, c: Column): Option<CheckError> {
    if c !in m.fields then (if c == SessionWindowStatus then None else Some(Missing(c)))
    else if Acceptable(rt, c, m.fields[c]) then None
    else Some(Invalid(c))
  }

  /** `check` as a decision. */
  predicate PassesCheck(rt: Runtime, m: Mutation) {
    forall k :: 0 <= k < |CHECKED| ==> CheckColumn(rt, m, CHECKED[k]) == None
  }

  /** What `check` promises: every required column set, every set column acceptable. */
  ghost predicate Checked(rt: Runtime, m: Mutation) {
    AllSet(m, REQUIRED) && AllAcceptable(rt, m, CHECKED)
  }

  ghost predicate AllSet(m: Mutation, cs: seq<Column>) {
    forall c :: c in cs ==> c in m.fields
  }

  ghost predicate AllAcceptable(rt: Runtime, m: Mutation, cs: seq<Column>) {
    forall c :: c in cs && c in m.fields ==> Acceptable(rt, c, m.fields[c])
  }

  /** What `defaults` leaves behind: the first `n` defaulted columns filled in where unset. */
  ghost predicate FilledIn(rt: Runtime, before: Mutation, after: Mutation, n: nat)
    requires n <= |DEFAULTED|
  {
    Filled(rt, before, after, DEFAULTED[..n])
  }

  ghost predicate Filled(rt: Runtime, before: Mutation, after: Mutation, cs: seq<Column>) {
    after.proxy == before.proxy && after.parent == before.parent &&
    (forall c :: c in after.fields <==> c in before.fields || c in cs) &&
    (forall c :: c in before.fields ==> after.fields[c] == before.fields[c]) &&
    forall c :: c in cs && c !in before.fields ==> c in rt.defaults && after.fields[c] == rt.defaults[c]
  }

  /** `defaults` from the `i`th defaulted column on: the mutation left behind, and what was missing. */
  function FillFrom(rt: Runtime, m: Mutation, i: nat): (Mutation, Option<Column>)
    requires i <= |DEFAULTED|
    decreases |DEFAULTED| - i
  {
    if i == |DEFAULTED| then (m, None)
    else
      var c := DEFAULTED[i];
      if c in m.fields then FillFrom(rt, m, i + 1)
      else if c !in rt.defaults then (m, Some(c))
      else FillFrom(rt, m.(fields := m.fields[c := rt.defaults[c]]), i + 1)
  }

  // ------------------------------------------------------------------ hooks

  datatype Outcome = Success | Failure(error: string)

  // What a hook does with the mutation it is handed: refuse, answer without calling
  // the next mutator, call it after editing the mutation in place, or call it with a
  // mutation of its own.
  datatype Before = Veto(error: string) | Answer | Call(m: Mutation) | Replace(m: Mutation)

  // A hook calls the next mutator at most once and may change what comes back.
  datatype Hook = Hook(before: Mutation -> Before, after: Outcome -> Outcome)

  class AccountCreate {
    const hooks: seq<Hook>
    var mutation: Mutation

    constructor (mutation: Mutation, hooks: seq<Hook>)
      ensures this.mutation == mutation && this.hooks == hooks
    {
      this.mutation, this.hooks := mutation, hooks;
    }

    /** `defaults`: on failure the columns before the missing default are already set. */
    method Defaults(rt: Runtime) returns (failed: Option<Column>)
      modifies this`mutation
      ensures (mutation, failed) == FillFrom(rt, old(mutation), 0)
      ensures failed.None? ==> FilledIn(rt, old(mutation), mutation, |DEFAULTED|)
      ensures failed.Some? ==>
                exists n :: 0 <= n < |DEFAULTED| && DEFAULTED[n] == failed.value &&
                            FilledIn(rt, old(mutation), mutation, n) &&
                            DEFAULTED[n] !in mutation.fields && DEFAULTED[n] !in rt.defaults
    {
      for i := 0 to |DEFAULTED|
        invariant FilledIn(rt, old(mutation), mutation, i)
        invariant FillFrom(rt, old(mutation), 0) == FillFrom(rt, mutation, i)
      {
        var c := DEFAULTED[i];
        assert DEFAULTED[..i + 1] == DEFAULTED[..i] + [c];
        if c !in mutation.fields {
          if c !in rt.defaults {
            return Some(c);
          }
          mutation := mutation.(fields := mutation.fields[c := rt.defaults[c]]);
        }
      }
      failed := None;
    }

    /** `check`: the first column in order that is missing or unacceptable, if any. */
    method Check(rt: Runtime) returns (err: Option<CheckError>)
      ensures err.None? <==> Checked(rt, mutation)
      ensures err.Some? ==>
                exists n :: 0 <= n < |CHECKED| && CheckColumn(rt, mutation, CHECKED[n]) == err &&
                            forall k :: 0 <= k < n ==> CheckColumn(rt, mutation, CHECKED[k]) == None
      ensures err.Some? && err.value.Missing? ==> err.value.column !in mutation.fields
      ensures err.Some? && err.value.Invalid? ==>
                err.value.column in mutation.fields &&
                !Acceptable(rt, err.value.column, mutation.fields[err.value.column])
    {
      for i := 0 to |CHECKED|
        invariant forall k :: 0 <= k < i ==> CheckColumn(rt, mutation, CHECKED[k]) == None
      {
        err := CheckColumn(rt, mutation, CHECKED[i]);
        if err.Some? {
          CheckedByColumns(rt, mutation);
          return;
        }
      }
      CheckedByColumns(rt, mutation);
      err := None;
    }

    /** The run of `if value, ok := ...` blocks of `createSpec`, one per column of `order`. */
    method SetFields(order: seq<Column>) returns (fields: seq<FieldSpec>, values: map<Column, Value>)
      ensures fields == SpecFields(mutation, order)
      ensures values == NodeFields(mutation, order)
    {
      fields, values := [], map[];
      for i := 0 to |order|
        invariant fields == SpecFields(mutation, order[..i])
        invariant values == NodeFields(mutation, order[..i])
      {
        var c := order[i];
        TakeSnoc(order, i);
        FieldsSnoc(mutation, order[..i], c);
        if c in mutation.fields {
          fields := fields + [FieldSpec(c, CreateType(c), mutation.fields[c])];
          values := values[c := mutation.fields[c]];
        }
      }
      assert order[..|order|] == order;
    }

    /** `createSpec`: the entity to return and the insert specification, field by field. */
    method CreateSpec() returns (node: Entity, spec: CreateSpecification)
      ensures node == NodeOf(mutation)
      ensures spec == SpecOf(mutation)
    {
      var fields, values := SetFields(CREATE_ORDER);
      var edges := [];
      if mutation.proxy.Some? {
        edges := edges + [EdgeSpec(ProxyID, mutation.proxy.value)];
        values := values[ProxyID := IntValue(mutation.proxy.value)];
      }
      if mutation.parent.Some? {
        edges := edges + [EdgeSpec(ParentAccountID, mutation.parent.value)];
        values := values[ParentAccountID := IntValue(mutation.parent.value)];
      }
      node, spec := Entity(0, values), CreateSpecification(fields, edges);
    }
  }

  lemma CheckedByColumns(rt: Runtime, m: Mutation)
    ensures Checked(rt, m) <==> PassesCheck(rt, m)
  {
    assert forall c :: c in REQUIRED <==> c in CHECKED && c != SessionWindowStatus;
    if PassesCheck(rt, m) {
      forall c | c in CHECKED
        ensures CheckColumn(rt, m, c) == None
      {
        var k :| 0 <= k < |CHECKED| && CHECKED[k] == c;
      }
    }
  }

  ghost predicate RequiredSet(m: Mutation) {
    && CreatedAt in m.fields && UpdatedAt in m.fields && Name in m.fields && Platform in m.fields && Type in m.fields
    && Credentials in m.fields && Extra in m.fields && Concurrency in m.fields && Priority in m.fields
    && RateMultiplier in m.fields && Status in m.fields && AutoPauseOnExpired in m.fields && Schedulable in m.fields
    && QuotaDimension in m.fields
  }

  ghost predicate ValidatedPass(rt: Runtime, m: Mutation) {
    && (Name in m.fields ==> rt.nameValidator(m.fields[Name]))
    && (Platform in m.fields ==> rt.platformValidator(m.fields[Platform]))
    && (Type in m.fields ==> rt.typeValidator(m.fields[Type]))
    && (Status in m.fields ==> rt.statusValidator(m.fields[Status]))
    && (SessionWindowStatus in m.fields ==> rt.sessionWindowStatusValidator(m.fields[SessionWindowStatus]))
    && (QuotaDimension in m.fields ==> m.fields[QuotaDimension] in {StringValue("global"), StringValue("spark")})
  }

  /** `check` column by column: what must be set, and which validator looks at what. */
  lemma CheckSpelledOut(rt: Runtime, m: Mutation)
    ensures Checked(rt, m) <==> RequiredSet(m) && ValidatedPass(rt, m)
  {
    RequiredMeans(m);
    ValidatedMeans(rt, m);
  }

  lemma RequiredMeans(m: Mutation)
    ensures AllSet(m, REQUIRED) <==> RequiredSet(m)
  {
    if AllSet(m, REQUIRED) {
      RequiredAreSet(m, REQUIRED);
    }
  }

  lemma RequiredAreSet(m: Mutation, required: seq<Column>)
    requires AllSet(m, required) && required == REQUIRED
    ensures RequiredSet(m)
  {
    FirstRequired(required);
    LastRequired(required);
  }

  lemma FirstRequired(required: seq<Column>)
    requires required == REQUIRED
    ensures CreatedAt in required && UpdatedAt in required && Name in required && Platform in required
    ensures Type in required && Credentials in required && Extra in required
  {
    assert required[0] == CreatedAt && required[1] == UpdatedAt && required[2] == Name && required[3] == Platform;
    assert required[4] == Type && required[5] == Credentials && required[6] == Extra;
  }

  lemma LastRequired(required: seq<Column>)
    requires required == REQUIRED
    ensures Concurrency in required && Priority in required && RateMultiplier in required && Status in required
    ensures AutoPauseOnExpired in required && Schedulable in required && QuotaDimension in required
  {
    assert required[7] == Concurrency && required[8] == Priority && required[9] == RateMultiplier;
    assert required[10] == Status && required[11] == AutoPauseOnExpired && required[12] == Schedulable;
    assert required[13] == QuotaDimension;
  }

  lemma ValidatedMeans(rt: Runtime, m: Mutation)
    ensures AllAcceptable(rt, m, CHECKED) <==> ValidatedPass(rt, m)
  {
    ValidatedAreChecked();
    AcceptedColumns(rt, m, CHECKED);
  }

  lemma AcceptedColumns(rt: Runtime, m: Mutation, checked: seq<Column>)
    requires Name in checked && Platform in checked && Type in checked && Status in checked
    requires SessionWindowStatus in checked && QuotaDimension in checked
    ensures AllAcceptable(rt, m, checked) <==> ValidatedPass(rt, m)
  {
  }

  lemma ValidatedAreChecked()
    ensures Name in CHECKED && Platform in CHECKED && Type in CHECKED && Status in CHECKED
    ensures SessionWindowStatus in CHECKED && QuotaDimension in CHECKED
  {
    assert CHECKED[2] == Name && CHECKED[3] == Platform && CHECKED[4] == Type && CHECKED[10] == Status;
    assert CHECKED[13] == SessionWindowStatus && CHECKED[14] == QuotaDimension;
  }

  // -------------------------------------------------------------- createSpec

  datatype FieldSpec = FieldSpec(column: Column, fieldType: FieldType, value: Value)

  // A many-to-one edge is written as a foreign key column of the row itself.
  datatype EdgeSpec = EdgeSpec(column: Column, target: int)

  datatype CreateSpecification = CreateSpecification(fields: seq<FieldSpec>, edges: seq<EdgeSpec>)

  // An `Account` value: fields left out are at their zero value, or nil where nillable.
  datatype Entity = Entity(id: int, fields: map<Column, Value>)

  const CREATE_ORDER: seq<Column> := [
    CreatedAt, UpdatedAt, DeletedAt, Name, Notes, Platform, Type, Credentials, Extra,
    ProxyFallbackOriginID, Concurrency, LoadFactor, Priority, RateMultiplier, Status, ErrorMessage,
    LastUsedAt, ExpiresAt, AutoPauseOnExpired, Schedulable, RateLimitedAt, RateLimitResetAt,
    OverloadUntil, TempUnschedulableUntil, TempUnschedulableReason, SessionWindowStart,
    SessionWindowEnd, SessionWindowStatus, QuotaDimension]

  /** The field type `createSpec` declares for a column. */
  function CreateType(c: Column): FieldType {
    match c
    case CreatedAt | UpdatedAt | DeletedAt | LastUsedAt | ExpiresAt | RateLimitedAt | RateLimitResetAt
       | OverloadUntil | TempUnschedulableUntil | SessionWindowStart | SessionWindowEnd => TypeTime
    case Name | Notes | Platform | Type | Status | ErrorMessage | TempUnschedulableReason
       | SessionWindowStatus => TypeString
    case Credentials | Extra => TypeJSON
    case ProxyFallbackOriginID | ProxyID | ParentAccountID | ID => TypeInt64
    case Concurrency | LoadFactor | Priority => TypeInt
    case RateMultiplier => TypeFloat64
    case AutoPauseOnExpired | Schedulable => TypeBool
    case QuotaDimension => TypeEnum
    case Unknown(_) => TypeString
  }

  predicate HasType(v: Value, t: FieldType) {
    match t
    case TypeTime => v.TimeValue?
    case TypeString | TypeEnum => v.StringValue?
    case TypeInt | TypeInt64 => v.IntValue?
    case TypeFloat64 => v.FloatValue?
    case TypeBool => v.BoolValue?
    case TypeJSON => v.JsonValue?
  }

  /** What Go's typed setters guarantee of a mutation. */
  ghost predicate WellTyped(m: Mutation) {
    forall c :: c in m.fields ==> c in CREATE_ORDER && HasType(m.fields[c], CreateType(c))
  }

  function SpecFields(m: Mutation, cs: seq<Column>): seq<FieldSpec> {
    if cs == [] then []
    else
      var c := cs[|cs| - 1];
      SpecFields(m, cs[..|cs| - 1])
      + (if c in m.fields then [FieldSpec(c, CreateType(c), m.fields[c])] else [])
  }

  function NodeFields(m: Mutation, cs: seq<Column>): map<Column, Value> {
    map c | c in cs && c in m.fields :: m.fields[c]
  }

  lemma FieldsSnoc(m: Mutation, cs: seq<Column>, c: Column)
    ensures SpecFields(m, cs + [c])
         == SpecFields(m, cs) + (if c in m.fields then [FieldSpec(c, CreateType(c), m.fields[c])] else [])
    ensures NodeFields(m, cs + [c])
         == if c in m.fields then NodeFields(m, cs)[c := m.fields[c]] else NodeFields(m, cs)
  {
  }

  function SpecOf(m: Mutation): CreateSpecification {
    CreateSpecification(SpecFields(m, CREATE_ORDER), EdgesOf(m))
  }

  function EdgesOf(m: Mutation): seq<EdgeSpec> {
    (if m.proxy.Some? then [EdgeSpec(ProxyID, m.proxy.value)] else []) +
    (if m.parent.Some? then [EdgeSpec(ParentAccountID, m.parent.value)] else [])
  }

  function NodeOf(m: Mutation): Entity {
    NodeIn(m, CREATE_ORDER)
  }

  function NodeIn(m: Mutation, order: seq<Column>): Entity {
    var scalars := NodeFields(m, order);
    var withProxy := if m.proxy.Some? then scalars[ProxyID := IntValue(m.proxy.value)] else scalars;
    Entity(0, if m.parent.Some? then withProxy[ParentAccountID := IntValue(m.parent.value)] else withProxy)
  }

  lemma NotCreated(c: Column)
    requires c.ID? || c.ProxyID? || c.ParentAccountID? || c.Unknown?
    ensures c !in CREATE_ORDER
  {
  }

  lemma IsCreated(c: Column)
    requires !c.ID? && !c.ProxyID? && !c.ParentAccountID? && !c.Unknown?
    ensures c in CREATE_ORDER
  {
  }

  /** The fields `createSpec` writes are all columns but the key and the two edges. */
  lemma CreateOrderExact(c: Column)
    ensures c in CREATE_ORDER <==> !c.ID? && !c.ProxyID? && !c.ParentAccountID? && !c.Unknown?
  {
    if !c.ID? && !c.ProxyID? && !c.ParentAccountID? && !c.Unknown? {
      IsCreated(c);
    } else {
      NotCreated(c);
    }
  }

  /** The fields written are the ones that are set, each once, with its declared type and its value. */
  lemma {:induction false} SpecFieldsExact(m: Mutation, order: seq<Column>)
    ensures Picks(order, IsSet(m), FieldOf(m), SpecFields(m, order))
  {
    if order == [] {
      PicksNothing(IsSet(m), FieldOf(m));
    } else {
      var init, last := order[..|order| - 1], order[|order| - 1];
      assert order == init + [last];
      SpecFieldsExact(m, init);
      PicksSnoc(init, last, IsSet(m), FieldOf(m), SpecFields(m, init));
    }
  }

  function IsSet(m: Mutation): Column -> bool {
    c => c in m.fields
  }

  function FieldOf(m: Mutation): Column -> FieldSpec {
    c => FieldSpec(c, CreateType(c), if c in m.fields then m.fields[c] else IntValue(0))
  }

  /** The two foreign keys a mutation's edges stand for. */
  function ForeignKeys(m: Mutation): map<Column, Value> {
    (if m.proxy.Some? then map[ProxyID := IntValue(m.proxy.value)] else map[]) +
    (if m.parent.Some? then map[ParentAccountID := IntValue(m.parent.value)] else map[])
  }

  /** The entity `createSpec` returns holds what the caller set, and nothing else. */
  lemma CreatedEntity(m: Mutation)
    requires WellTyped(m)
    ensures NodeOf(m) == Entity(0, m.fields + ForeignKeys(m))
  {
    CreatedEntityIn(m, CREATE_ORDER);
  }

  lemma CreatedEntityIn(m: Mutation, order: seq<Column>)
    requires forall c :: c in m.fields ==> c in order
    ensures NodeIn(m, order) == Entity(0, m.fields + ForeignKeys(m))
  {
    assert NodeFields(m, order) == m.fields;
  }

  /** A `defaults` that fails leaves a required column unset: the mutation it leaves does not pass `check` as it stands. */
  lemma FailedDefaultsAreCaught(rt: Runtime, before: Mutation, after: Mutation, n: nat)
    requires n < |DEFAULTED| && FilledIn(rt, before, after, n) && DEFAULTED[n] !in after.fields
    ensures !Checked(rt, after)
  {
  }

  /** After successful defaults only the caller's own choices can fail the check. */
  lemma CheckAfterDefaults(rt: Runtime, before: Mutation, after: Mutation)
    requires FilledIn(rt, before, after, |DEFAULTED|)
    requires forall c :: c in rt.defaults ==> Acceptable(rt, c, rt.defaults[c])
    ensures Checked(rt, after) <==> AllSet(before, [Name, Platform, Type]) && AllAcceptable(rt, before, CHECKED)
  {
    RequiredColumns();
    assert DEFAULTED[..|DEFAULTED|] == DEFAULTED;
    AcceptableAfterDefaults(rt, before, after, DEFAULTED, CHECKED);
    SetAfterDefaults(rt, before, after, DEFAULTED, REQUIRED);
  }

  lemma AcceptableAfterDefaults(rt: Runtime, before: Mutation, after: Mutation, defaulted: seq<Column>, cs: seq<Column>)
    requires Filled(rt, before, after, defaulted)
    requires forall c :: c in rt.defaults ==> Acceptable(rt, c, rt.defaults[c])
    ensures AllAcceptable(rt, after, cs) <==> AllAcceptable(rt, before, cs)
  {
  }

  lemma SetAfterDefaults(rt: Runtime, before: Mutation, after: Mutation, defaulted: seq<Column>, required: seq<Column>)
    requires Filled(rt, before, after, defaulted)
    requires forall c :: c in required <==> c in defaulted || c == Name || c == Platform || c == Type
    requires Name !in defaulted && Platform !in defaulted && Type !in defaulted
    ensures AllSet(after, required) <==> AllSet(before, [Name, Platform, Type])
  {
    var own := [Name, Platform, Type];
    assert forall c :: c in own <==> c == Name || c == Platform || c == Type;
    assert forall c :: c in required ==> (c in after.fields <==> c in defaulted || c in before.fields);
  }

  lemma RequiredColumns()
    ensures forall c :: c in REQUIRED <==> c in DEFAULTED || c == Name || c == Platform || c == Type
    ensures Name !in DEFAULTED && Platform !in DEFAULTED && Type !in DEFAULTED
  {
    RequiredFrom(DEFAULTED[2..]);
    TypedNotDefaulted();
  }

  lemma TypedNotDefaulted()
    ensures Name !in DEFAULTED && Platform !in DEFAULTED && Type !in DEFAULTED
  {
  }

  lemma RequiredFrom(rest: seq<Column>)
    ensures forall c :: c in [CreatedAt, UpdatedAt, Name, Platform, Type] + rest <==>
              c in [CreatedAt, UpdatedAt] + rest || c == Name || c == Platform || c == Type
  {
  }
}
