/** The shapes of the three Redshift Data API calls the executor makes
    (statement submission, status description, result fetch), the faults a
    call may throw, and the trace of upstream interactions. */
module DataApi {
  import opened Types

  /** What a throwing call raises: an `Error` with a message, or any other value. */
  datatype Fault = ErrorFault(message: string) | OtherFault

  /** The answer of one upstream call: it returns a response or throws. */
  datatype Reply<T> = Returned(value: T) | Threw(fault: Fault)

  datatype SubmitResponse = SubmitResponse(id: Option<string>)

  datatype StatusResponse = StatusResponse(status: Option<string>, error: Option<string>)

  datatype ColumnMetadata = ColumnMetadata(name: Option<string>)

  /** The warehouse's typed cell: a union whose tags are all optional. */
  datatype Field = Field(
    stringValue: Option<string>,
    longValue: Option<int>,
    doubleValue: Option<Float64>,
    booleanValue: Option<bool>,
    isNull: Option<bool>)

  datatype ResultResponse = ResultResponse(
    columnMetadata: Option<seq<ColumnMetadata>>,
    records: Option<seq<seq<Field>>>)

  /** The answers the upstream service gives to one request. Status calls are
      answered in order from `statuses`. */
  datatype Oracle = Oracle(
    submit: Reply<SubmitResponse>,
    statuses: seq<Reply<StatusResponse>>,
    fetch: Reply<ResultResponse>)

  /** One observable step of the executor towards the upstream service. */
  datatype Call =
    | BuildClient(region: string, accessKeyId: string, secretAccessKey: string)
    | Submit(workgroupName: string, database: string, sql: string, schema: Option<string>)
    | Delay
    | Describe(id: string)
    | Fetch(id: string)

  /** Number of status calls in a trace. */
  function CountDescribes(calls: seq<Call>): nat {
    if calls == [] then 0
    else CountDescribes(calls[..|calls| - 1]) + (if calls[|calls| - 1].Describe? then 1 else 0)
  }

  lemma {:induction false} CountDescribesAppend(a: seq<Call>, b: seq<Call>)
    ensures CountDescribes(a + b) == CountDescribes(a) + CountDescribes(b)
    decreases |b|
  {
    if b == [] {
      assert a + b == a;
    } else {
      assert (a + b)[..|a + b| - 1] == a + b[..|b| - 1];
      CountDescribesAppend(a, b[..|b| - 1]);
    }
  }
}
