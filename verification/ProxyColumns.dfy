// The columns of the proxies table (backend/ent/proxy/proxy.go). `Unknown`
// stands for any other string a caller may pass as a field name.
module ProxyColumns {

  datatype Column =
    | ID | CreatedAt | UpdatedAt | DeletedAt | Name | Protocol | Host | Port
    | Username | Password | Status | ExpiresAt | FallbackMode | BackupProxyID
    | ExpiryWarnDays | Unknown(name: string)

  const COLUMNS: seq<Column> := [
    ID, CreatedAt, UpdatedAt, DeletedAt, Name, Protocol, Host, Port,
    Username, Password, Status, ExpiresAt, FallbackMode, BackupProxyID,
    ExpiryWarnDays]

  predicate ValidColumn(c: Column) {
    c in COLUMNS
  }

  /** The list names every column of the table and nothing else. */
  lemma ColumnsExact(c: Column)
    ensures ValidColumn(c) <==> !c.Unknown?
  {
  }
}
