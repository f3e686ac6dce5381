/** The request credentials and the result envelope that every execution path
    of the warehouse executor produces. */
module Types {

  datatype Option<+T> = None | Some(value: T)

  /** JavaScript truthiness of an optional string: an absent value and "" are both falsy. */
  predicate Present(s: Option<string>) {
    s.Some? && s.value != ""
  }

  /** `s || fallback` on an optional string. */
  function OrElse(s: Option<string>, fallback: string): string {
    if Present(s) then s.value else fallback
  }

  datatype DatabaseType = Redshift | Postgres

  /** Connection target of one request. host, database and user are declared
      required, but the executor still guards against their absence, so they
      are optional here. */
  datatype DatabaseCredentials = DatabaseCredentials(
    databaseType: DatabaseType,
    host: Option<string>,
    port: int,
    database: Option<string>,
    user: Option<string>,
    password: string,
    schema: Option<string>,
    connectionString: Option<string>)

  /** A 64-bit floating-point value, kept as its bit pattern: its numeric meaning is not modelled. */
  datatype Float64 = Float64(bits: bv64)

  /** A decoded cell of a result row. */
  datatype Value = Str(s: string) | Long(n: int) | Double(d: Float64) | Bool(b: bool) | Null

  /** A result row: column name to decoded value. */
  type Row = map<string, Value>

  datatype SqlQueryResult = SqlQueryResult(
    columns: seq<string>,
    rows: seq<Row>,
    error: Option<string>,
    query: Option<string>)

  /** The soft-failure envelope: no columns, no rows, a message and the echoed query. */
  function ErrorResult(message: string, query: string): SqlQueryResult {
    SqlQueryResult([], [], Some(message), Some(query))
  }
}
