// Reading an account row back: `scanValues` and `assignValues` of
// backend/ent/account.go, and the round trip with `createSpec`.
module AccountRows {
  import opened Prelude
  import opened AccountColumns
  import opened AccountCreation

  // ----------------------------------------------------------- the stored row

  datatype Cell =
    | Null | TimeCell(t: int) | TextCell(s: string) | IntCell(i: int) | FloatCell(f: real)
    | BoolCell(b: bool) | BytesCell(bytes: string)

  // JSON text as the encoder writes it and the decoder reads it.
  datatype Codec = Codec(encode: Json -> string, decode: string -> Option<Json>)

  /** Decoding undoes encoding, and encoded text is never empty. */
  ghost predicate Inverse(codec: Codec) {
    forall j :: codec.encode(j) != "" && codec.decode(codec.encode(j)) == Some(j)
  }

  function CellOf(codec: Codec, v: Value): Cell {
    match v
    case TimeValue(t) => TimeCell(t)
    case StringValue(s) => TextCell(s)
    case IntValue(i) => IntCell(i)
    case FloatValue(f) => FloatCell(f)
    case BoolValue(b) => BoolCell(b)
    case JsonValue(j) => BytesCell(codec.encode(j))
  }

  function FieldCell(codec: Codec, fields: seq<FieldSpec>, c: Column): Cell {
    if fields == [] then Null
    else if fields[|fields| - 1].column == c then CellOf(codec, fields[|fields| - 1].value)
    else FieldCell(codec, fields[..|fields| - 1], c)
  }

  function EdgeCell(edges: seq<EdgeSpec>, c: Column): Cell {
    if edges == [] then Null
    else if edges[|edges| - 1].column == c then IntCell(edges[|edges| - 1].target)
    else EdgeCell(edges[..|edges| - 1], c)
  }

  /** The cell that inserting `spec` with primary key `id` stores in column `c`. */
  function StoredCell(codec: Codec, spec: CreateSpecification, id: int, c: Column): Cell {
    if c == ID then IntCell(id)
    else
      var cell := FieldCell(codec, spec.fields, c);
      if cell == Null then EdgeCell(spec.edges, c) else cell
  }

  // ----------------------------------------------------------------- scanning

  datatype HolderType = BytesHolder | BoolHolder | FloatHolder | IntHolder | StringHolder | TimeHolder | UnknownHolder

  // A `sql.Null...` value after scanning, `None` for an invalid one.
  datatype Scanned =
    | ScannedBytes(bytes: string) | ScannedBool(b: Option<bool>) | ScannedFloat(f: Option<real>)
    | ScannedInt(i: Option<int>) | ScannedString(s: Option<string>) | ScannedTime(t: Option<int>)
    | ScannedUnknown

  function HolderFor(c: Column): HolderType {
    match c
    case Credentials | Extra => BytesHolder
    case AutoPauseOnExpired | Schedulable => BoolHolder
    case RateMultiplier => FloatHolder
    case ID | ProxyID | ProxyFallbackOriginID | Concurrency | LoadFactor | Priority | ParentAccountID => IntHolder
    case Name | Notes | Platform | Type | Status | ErrorMessage | TempUnschedulableReason
       | SessionWindowStatus | QuotaDimension => StringHolder
    case CreatedAt | UpdatedAt | DeletedAt | LastUsedAt | ExpiresAt | RateLimitedAt | RateLimitResetAt
       | OverloadUntil | TempUnschedulableUntil | SessionWindowStart | SessionWindowEnd => TimeHolder
    case Unknown(_) => UnknownHolder
  }

  /** `scanValues`: one holder per column. */
  method ScanValues(columns: seq<Column>) returns (holders: seq<HolderType>)
    ensures |holders| == |columns|
    ensures forall i :: 0 <= i < |columns| ==> holders[i] == HolderFor(columns[i])
  {
    holders := [];
    for i := 0 to |columns|
      invariant |holders| == i
      invariant forall k :: 0 <= k < i ==> holders[k] == HolderFor(columns[k])
    {
      holders := holders + [HolderFor(columns[i])];
    }
  }

  /** What the driver puts into a holder; `None` when the cell does not convert. */
  function Scan(h: HolderType, cell: Cell): Option<Scanned> {
    match (h, cell)
    case (BytesHolder, Null) => Some(ScannedBytes(""))
    case (BytesHolder, BytesCell(bytes)) => Some(ScannedBytes(bytes))
    case (BoolHolder, Null) => Some(ScannedBool(None))
    case (BoolHolder, BoolCell(b)) => Some(ScannedBool(Some(b)))
    case (FloatHolder, Null) => Some(ScannedFloat(None))
    case (FloatHolder, FloatCell(f)) => Some(ScannedFloat(Some(f)))
    case (IntHolder, Null) => Some(ScannedInt(None))
    case (IntHolder, IntCell(i)) => Some(ScannedInt(Some(i)))
    case (StringHolder, Null) => Some(ScannedString(None))
    case (StringHolder, TextCell(s)) => Some(ScannedString(Some(s)))
    case (TimeHolder, Null) => Some(ScannedTime(None))
    case (TimeHolder, TimeCell(t)) => Some(ScannedTime(Some(t)))
    case (UnknownHolder, _) => Some(ScannedUnknown)
    case _ => None
  }

  // ---------------------------------------------------------------- assigning

  datatype AssignError = TooFewValues | UnexpectedType(column: Column) | BadJson(column: Column)

  function SetField(e: Entity, c: Column, v: Value): Entity {
    e.(fields := e.fields[c := v])
  }

  /** One case of the switch in `assignValues`. */
  function AssignColumn(codec: Codec, e: Entity, c: Column, v: Scanned): Result<Entity, AssignError> {
    match c
    case ID =>
      if v.ScannedInt? then Ok(e.(id := if v.i.Some? then v.i.value else 0)) else Err(UnexpectedType(c))
    case CreatedAt | UpdatedAt | DeletedAt | LastUsedAt | ExpiresAt | RateLimitedAt | RateLimitResetAt
       | OverloadUntil | TempUnschedulableUntil | SessionWindowStart | SessionWindowEnd =>
      if !v.ScannedTime? then Err(UnexpectedType(c))
      else if v.t.Some? then Ok(SetField(e, c, TimeValue(v.t.value))) else Ok(e)
    case Name | Notes | Platform | Type | Status | ErrorMessage | TempUnschedulableReason
       | SessionWindowStatus | QuotaDimension =>
      if !v.ScannedString? then Err(UnexpectedType(c))
      else if v.s.Some? then Ok(SetField(e, c, StringValue(v.s.value))) else Ok(e)
    case Credentials | Extra =>
      if !v.ScannedBytes? then Err(UnexpectedType(c))
      else if |v.bytes| > 0 then
        var j := codec.decode(v.bytes);
        if j.None? then Err(BadJson(c)) else Ok(SetField(e, c, JsonValue(j.value)))
      else Ok(e)
    case ProxyID | ProxyFallbackOriginID | Concurrency | LoadFactor | Priority | ParentAccountID =>
      if !v.ScannedInt? then Err(UnexpectedType(c))
      else if v.i.Some? then Ok(SetField(e, c, IntValue(v.i.value))) else Ok(e)
    case RateMultiplier =>
      if !v.ScannedFloat? then Err(UnexpectedType(c))
      else if v.f.Some? then Ok(SetField(e, c, FloatValue(v.f.value))) else Ok(e)
    case AutoPauseOnExpired | Schedulable =>
      if !v.ScannedBool? then Err(UnexpectedType(c))
      else if v.b.Some? then Ok(SetField(e, c, BoolValue(v.b.value))) else Ok(e)
    case Unknown(_) => Ok(e)
  }

  /** The value holders of one type deliver, NULL included. */
  predicate Delivers(h: HolderType, v: Scanned) {
    match h
    case BytesHolder => v.ScannedBytes?
    case BoolHolder => v.ScannedBool?
    case FloatHolder => v.ScannedFloat?
    case IntHolder => v.ScannedInt?
    case StringHolder => v.ScannedString?
    case TimeHolder => v.ScannedTime?
    case UnknownHolder => true
  }

  /** Assigning fails exactly on a value of another holder type, or on JSON that does not decode. */
  lemma AssignFails(codec: Codec, e: Entity, c: Column, v: Scanned)
    ensures AssignColumn(codec, e, c, v) == Err(UnexpectedType(c)) <==> !Delivers(HolderFor(c), v)
    ensures AssignColumn(codec, e, c, v) == Err(BadJson(c)) <==>
            HolderFor(c).BytesHolder? && v.ScannedBytes? && v.bytes != "" && codec.decode(v.bytes).None?
    ensures AssignColumn(codec, e, c, v).Err? ==> AssignColumn(codec, e, c, v).error in {UnexpectedType(c), BadJson(c)}
  {
  }

  /** ... and otherwise sets its own column or nothing. */
  lemma AssignTouchesOneColumn(codec: Codec, e: Entity, c: Column, v: Scanned)
    requires AssignColumn(codec, e, c, v).Ok?
    ensures var e' := AssignColumn(codec, e, c, v).value;
            e' == e || (c == ID && e'.fields == e.fields) ||
            (c != ID && c in e'.fields && e' == SetField(e, c, e'.fields[c]))
  {
  }

  function AssignFrom(codec: Codec, e: Entity, columns: seq<Column>, values: seq<Scanned>): Result<Entity, AssignError>
    requires |columns| <= |values|
    decreases |columns|
  {
    if columns == [] then Ok(e)
    else
      var r := AssignColumn(codec, e, columns[0], values[0]);
      if r.Err? then r else AssignFrom(codec, r.value, columns[1..], values[1..])
  }

  ghost predicate Fails(codec: Codec, e: Entity, c: Column, v: Scanned) {
    AssignColumn(codec, e, c, v).Err?
  }

  /** Assigning a row stops at the first value that cannot be assigned, with its error. */
  lemma {:induction false} AssignStops(codec: Codec, e: Entity, columns: seq<Column>, values: seq<Scanned>, k: nat)
    requires k < |columns| <= |values| && Fails(codec, e, columns[k], values[k])
    requires forall i :: 0 <= i < k ==> !Fails(codec, e, columns[i], values[i])
    ensures AssignFrom(codec, e, columns, values) == Err(AssignColumn(codec, e, columns[k], values[k]).error)
    decreases |columns|
  {
    if k > 0 {
      var next := AssignColumn(codec, e, columns[0], values[0]).value;
      forall i | 0 <= i < |columns|
        ensures AssignColumn(codec, next, columns[i], values[i]).Err? == Fails(codec, e, columns[i], values[i])
        ensures Fails(codec, e, columns[i], values[i]) ==>
                  AssignColumn(codec, next, columns[i], values[i]).error
                  == AssignColumn(codec, e, columns[i], values[i]).error
      {
        SameFailure(codec, e, next, columns[i], values[i]);
      }
      AssignStops(codec, next, columns[1..], values[1..], k - 1);
    }
  }

  lemma SameFailure(codec: Codec, e: Entity, e': Entity, c: Column, v: Scanned)
    ensures AssignColumn(codec, e, c, v).Err? == AssignColumn(codec, e', c, v).Err?
    ensures AssignColumn(codec, e, c, v).Err? ==>
              AssignColumn(codec, e, c, v).error == AssignColumn(codec, e', c, v).error
  {
  }

  /** `assignValues` on a fresh entity. */
  method AssignValues(codec: Codec, columns: seq<Column>, values: seq<Scanned>)
    returns (r: Result<Entity, AssignError>)
    ensures |values| < |columns| ==> r == Err(TooFewValues)
    ensures |columns| <= |values| ==> r == AssignFrom(codec, Entity(0, map[]), columns, values)
  {
    if |values| < |columns| {
      return Err(TooFewValues);
    }
    var e := Entity(0, map[]);
    for i := 0 to |columns|
      invariant AssignFrom(codec, Entity(0, map[]), columns, values) == AssignFrom(codec, e, columns[i..], values[i..])
    {
      var next := AssignColumn(codec, e, columns[i], values[i]);
      if next.Err? {
        return next;
      }
      e := next.value;
    }
    r := Ok(e);
  }

  // --------------------------------------------------------------- round trip

  /** Scanning `columns` of the row that inserting `spec` as `id` stored. */
  ghost predicate ReadsRow(codec: Codec, spec: CreateSpecification, id: int, columns: seq<Column>, values: seq<Scanned>) {
    |values| == |columns| &&
    forall i :: 0 <= i < |columns| ==>
      Scan(HolderFor(columns[i]), StoredCell(codec, spec, id, columns[i])) == Some(values[i])
  }

  /** The part of an entity that `columns` can tell. */
  ghost function Seen(e: Entity, columns: seq<Column>): Entity {
    Entity(if ID in columns then e.id else 0, Restrict(e.fields, columns))
  }

  lemma FieldCellSnoc(codec: Codec, fields: seq<FieldSpec>, f: FieldSpec, c: Column)
    ensures FieldCell(codec, fields + [f], c)
         == if f.column == c then CellOf(codec, f.value) else FieldCell(codec, fields, c)
  {
  }

  lemma {:induction false} FieldCellOf(codec: Codec, m: Mutation, cs: seq<Column>, c: Column)
    ensures FieldCell(codec, SpecFields(m, cs), c)
         == if c in cs && c in m.fields then CellOf(codec, m.fields[c]) else Null
  {
    if cs != [] {
      var init, last := cs[..|cs| - 1], cs[|cs| - 1];
      FieldCellOf(codec, m, init, c);
      assert c in cs <==> c in init || c == last;
      if last in m.fields {
        FieldCellSnoc(codec, SpecFields(m, init), FieldSpec(last, CreateType(last), m.fields[last]), c);
      } else {
        assert SpecFields(m, init) + [] == SpecFields(m, init);
      }
    }
  }

  lemma EdgeCellOf(m: Mutation, c: Column)
    ensures EdgeCell(EdgesOf(m), c)
         == if c == ProxyID && m.proxy.Some? then IntCell(m.proxy.value)
            else if c == ParentAccountID && m.parent.Some? then IntCell(m.parent.value)
            else Null
  {
    var es := EdgesOf(m);
    if m.proxy.Some? && m.parent.Some? {
      assert es[..1] == [EdgeSpec(ProxyID, m.proxy.value)] && es[..1][..0] == [];
      assert EdgeCell(es[..1], c) == if c == ProxyID then IntCell(m.proxy.value) else Null;
    } else if m.proxy.Some? || m.parent.Some? {
      assert es[..0] == [];
    }
  }

  lemma NodeInField(m: Mutation, order: seq<Column>, c: Column)
    requires ProxyID !in m.fields && ParentAccountID !in m.fields && (c in m.fields ==> c in order)
    ensures MapLookup(NodeIn(m, order).fields, c)
         == if c in m.fields then Some(m.fields[c])
            else if c == ProxyID && m.proxy.Some? then Some(IntValue(m.proxy.value))
            else if c == ParentAccountID && m.parent.Some? then Some(IntValue(m.parent.value))
            else None
  {
  }

  ghost function MapLookup(fields: map<Column, Value>, c: Column): Option<Value> {
    if c in fields then Some(fields[c]) else None
  }

  lemma StoredCellIn(codec: Codec, m: Mutation, order: seq<Column>, id: int, c: Column)
    requires ProxyID !in m.fields && ParentAccountID !in m.fields && c != ID && (c in m.fields ==> c in order)
    ensures StoredCell(codec, CreateSpecification(SpecFields(m, order), EdgesOf(m)), id, c)
         == if c in NodeIn(m, order).fields then CellOf(codec, NodeIn(m, order).fields[c]) else Null
  {
    FieldCellOf(codec, m, order, c);
    EdgeCellOf(m, c);
    NodeInField(m, order, c);
  }

  /** Each stored cell is the encoding of the entity's field, or NULL where it has none. */
  lemma StoredCellOf(codec: Codec, m: Mutation, id: int, c: Column)
    requires WellTyped(m) && c != ID
    ensures StoredCell(codec, SpecOf(m), id, c)
         == if c in NodeOf(m).fields then CellOf(codec, NodeOf(m).fields[c]) else Null
  {
    CreatedInOrder(m, c);
    StoredCellIn(codec, m, CREATE_ORDER, id, c);
  }

  lemma CreatedInOrder(m: Mutation, c: Column)
    requires WellTyped(m)
    ensures ProxyID !in m.fields && ParentAccountID !in m.fields && ID !in m.fields
    ensures c in m.fields ==> c in CREATE_ORDER
  {
    NotCreated(ProxyID);
    NotCreated(ParentAccountID);
    NotCreated(ID);
  }

  lemma NodeFieldSource(m: Mutation, c: Column)
    requires WellTyped(m)
    ensures c in NodeOf(m).fields ==>
              (c in m.fields && NodeOf(m).fields[c] == m.fields[c]) ||
              ((c == ProxyID || c == ParentAccountID) && NodeOf(m).fields[c].IntValue?)
  {
    CreatedInOrder(m, c);
    if c in NodeOf(m).fields {
      NodeInSource(m, CREATE_ORDER, c);
    }
  }

  lemma NodeInSource(m: Mutation, order: seq<Column>, c: Column)
    requires ProxyID !in m.fields && ParentAccountID !in m.fields && c in NodeIn(m, order).fields
    ensures (c in m.fields && NodeIn(m, order).fields[c] == m.fields[c]) ||
            ((c == ProxyID || c == ParentAccountID) && NodeIn(m, order).fields[c].IntValue?)
  {
  }

  lemma NodeTyped(m: Mutation, c: Column)
    requires WellTyped(m)
    ensures c in NodeOf(m).fields ==> HasType(NodeOf(m).fields[c], CreateType(c)) && !c.Unknown? && c != ID
  {
    NodeFieldSource(m, c);
    CreatedInOrder(m, c);
    if c.Unknown? {
      NotCreated(c);
    }
  }

  lemma HolderTakesType(codec: Codec, c: Column, v: Value)
    requires HasType(v, CreateType(c)) && !c.Unknown?
    ensures Scan(HolderFor(c), CellOf(codec, v)).Some?
  {
  }

  lemma HolderTakesNull(c: Column)
    ensures Scan(HolderFor(c), Null).Some?
  {
  }

  /** The holder `scanValues` picks for a column always takes the cell stored there. */
  lemma ScanSucceeds(codec: Codec, m: Mutation, id: int, c: Column)
    requires WellTyped(m)
    ensures Scan(HolderFor(c), StoredCell(codec, SpecOf(m), id, c)).Some?
  {
    if c != ID {
      StoredCellOf(codec, m, id, c);
      HolderTakesNull(c);
      if c in NodeOf(m).fields {
        NodeTyped(m, c);
        HolderTakesType(codec, c, NodeOf(m).fields[c]);
      }
    }
  }

  /** ... and `assignValues` turns it back into the field it came from. */
  lemma AssignReadsBack(codec: Codec, m: Mutation, id: int, c: Column, v: Scanned, e: Entity)
    requires WellTyped(m) && Inverse(codec)
    requires Scan(HolderFor(c), StoredCell(codec, SpecOf(m), id, c)) == Some(v)
    ensures AssignColumn(codec, e, c, v)
         == Ok(if c == ID then e.(id := id)
               else if c in NodeOf(m).fields then SetField(e, c, NodeOf(m).fields[c])
               else e)
  {
    if c != ID {
      StoredCellOf(codec, m, id, c);
      if c in NodeOf(m).fields {
        NodeTyped(m, c);
        AssignUndoesStore(codec, e, c, NodeOf(m).fields[c], v);
      } else {
        AssignSkipsNull(codec, e, c, v);
      }
    }
  }

  lemma AssignUndoesStore(codec: Codec, e: Entity, c: Column, v: Value, x: Scanned)
    requires Inverse(codec) && HasType(v, CreateType(c)) && !c.Unknown? && c != ID
    requires Scan(HolderFor(c), CellOf(codec, v)) == Some(x)
    ensures AssignColumn(codec, e, c, x) == Ok(SetField(e, c, v))
  {
  }

  lemma AssignSkipsNull(codec: Codec, e: Entity, c: Column, x: Scanned)
    requires c != ID && Scan(HolderFor(c), Null) == Some(x)
    ensures AssignColumn(codec, e, c, x) == Ok(e)
  {
  }

  /**
   * Main result: for any column list, in any order and with repeats, reading the row
   * that `createSpec` stored never fails and gives back what those columns can tell of
   * the entity `createSpec` returned.
   */
  lemma {:induction false} CreateThenRead(codec: Codec, m: Mutation, id: int, columns: seq<Column>,
                                          values: seq<Scanned>)
    requires WellTyped(m) && Inverse(codec)
    requires ReadsRow(codec, SpecOf(m), id, columns, values)
    ensures AssignFrom(codec, Entity(0, map[]), columns, values) == Ok(Seen(NodeOf(m).(id := id), columns))
  {
    ReadOnto(codec, m, id, columns, values, Entity(0, map[]));
    assert map[] + Seen(NodeOf(m), columns).fields == Seen(NodeOf(m), columns).fields;
  }

  lemma {:induction false} ReadOnto(codec: Codec, m: Mutation, id: int, columns: seq<Column>,
                                    values: seq<Scanned>, e: Entity)
    requires WellTyped(m) && Inverse(codec)
    requires ReadsRow(codec, SpecOf(m), id, columns, values)
    ensures AssignFrom(codec, e, columns, values)
         == Ok(Entity(if ID in columns then id else e.id, e.fields + Seen(NodeOf(m), columns).fields))
    decreases |columns|
  {
    if columns == [] {
      assert e.fields + map[] == e.fields;
    } else {
      var c, rest := columns[0], columns[1..];
      AssignReadsBack(codec, m, id, c, values[0], e);
      var next := AssignColumn(codec, e, c, values[0]).value;
      ReadOnto(codec, m, id, rest, values[1..], next);
      assert columns == [c] + rest;
      SeenCons(m, c, rest, e, next);
    }
  }

  lemma SeenCons(m: Mutation, c: Column, rest: seq<Column>, e: Entity, next: Entity)
    requires WellTyped(m)
    requires next.fields == if c != ID && c in NodeOf(m).fields then e.fields[c := NodeOf(m).fields[c]] else e.fields
    ensures next.fields + Seen(NodeOf(m), rest).fields == e.fields + Seen(NodeOf(m), [c] + rest).fields
  {
    if ID in NodeOf(m).fields {
      NodeTyped(m, ID);
    }
    OverlayCons(NodeOf(m).fields, c, rest, e.fields);
  }

  ghost function Restrict(fields: map<Column, Value>, cs: seq<Column>): map<Column, Value> {
    map c | c in fields && c in cs :: fields[c]
  }

  lemma OverlayCons(fields: map<Column, Value>, c: Column, rest: seq<Column>, onto: map<Column, Value>)
    ensures (if c in fields then onto[c := fields[c]] else onto) + Restrict(fields, rest)
         == onto + Restrict(fields, [c] + rest)
  {
  }

  /** Reading all columns rebuilds the entity itself. */
  lemma CreateThenReadAll(codec: Codec, m: Mutation, id: int, values: seq<Scanned>)
    requires WellTyped(m) && Inverse(codec)
    requires ReadsRow(codec, SpecOf(m), id, COLUMNS, values)
    ensures AssignFrom(codec, Entity(0, map[]), COLUMNS, values) == Ok(NodeOf(m).(id := id))
  {
    CreateThenRead(codec, m, id, COLUMNS, values);
    forall c | c in NodeOf(m).fields
      ensures c in COLUMNS
    {
      NodeTyped(m, c);
      EveryColumnListed(c);
    }
    assert Seen(NodeOf(m).(id := id), COLUMNS).fields == NodeOf(m).fields;
    EveryColumnListed(ID);
  }

  lemma EveryColumnListed(c: Column)
    requires !c.Unknown?
    ensures c in COLUMNS
  {
  }
}
