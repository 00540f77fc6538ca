// The columns of the accounts table (backend/ent/account/account.go). `Unknown`
// stands for any other string a caller may pass as a field name.
module AccountColumns {

  datatype Column =
    | ID | CreatedAt | UpdatedAt | DeletedAt | Name | Notes | Platform | Type
    | Credentials | Extra | ProxyID | ProxyFallbackOriginID | Concurrency
    | LoadFactor | Priority | RateMultiplier | Status | ErrorMessage | LastUsedAt
    | ExpiresAt | AutoPauseOnExpired | Schedulable | RateLimitedAt
    | RateLimitResetAt | OverloadUntil | TempUnschedulableUntil
    | TempUnschedulableReason | SessionWindowStart | SessionWindowEnd
    | SessionWindowStatus | ParentAccountID | QuotaDimension
    | Unknown(name: string)

  const COLUMNS: seq<Column> := [
    ID, CreatedAt, UpdatedAt, DeletedAt, Name, Notes, Platform, Type,
    Credentials, Extra, ProxyID, ProxyFallbackOriginID, Concurrency,
    LoadFactor, Priority, RateMultiplier, Status, ErrorMessage, LastUsedAt,
    ExpiresAt, AutoPauseOnExpired, Schedulable, RateLimitedAt,
    RateLimitResetAt, OverloadUntil, TempUnschedulableUntil,
    TempUnschedulableReason, SessionWindowStart, SessionWindowEnd,
    SessionWindowStatus, ParentAccountID, QuotaDimension]

  predicate ValidColumn(c: Column) {
    c in COLUMNS
  }

  /** The list names every column of the table and nothing else. */
  lemma ColumnsExact(c: Column)
    ensures ValidColumn(c) <==> !c.Unknown?
  {
    if c.Unknown? {
      NoColumn(c);
    } else {
      SomeColumn(c);
    }
  }

  lemma NoColumn(c: Column)
    requires c.Unknown?
    ensures c !in COLUMNS
  {
  }

  lemma SomeColumn(c: Column)
    requires !c.Unknown?
    ensures c in COLUMNS
  {
  }
}
