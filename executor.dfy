/** The warehouse executor: validates the credentials, parses the host,
    submits the statement, drives the poller, fetches and decodes the result
    set, and turns every outcome, thrown faults included, into a result
    envelope. The three upstream calls are answered by an `Oracle`. */
module RedshiftExecutor {
  import opened Types
  import opened DataApi
  import opened HostFormat
  import opened FieldDecoder
  import opened StatementPoller

  const MissingCredentialsMessage := "Missing required credentials (host, database, or user)"
  const InvalidHostMessage := "Invalid host format. Expected format: workgroup-name.account-id.region.redshift-serverless.amazonaws.com"
  const NoStatementIdMessage := "Failed to get statement ID from Redshift"
  const TimeoutMessage := "Query timed out after multiple attempts"
  const UnknownFaultMessage := "Failed to execute SQL query."

  predicate CredentialsPresent(c: DatabaseCredentials) {
    Present(c.host) && Present(c.database) && Present(c.user)
  }

  /** Credentials that get past validation and host parsing. */
  predicate Accepted(c: DatabaseCredentials) {
    CredentialsPresent(c) && '.' in c.host.value
  }

  /** Submission answered with a usable statement id. */
  predicate Submitted(o: Oracle) {
    o.submit.Returned? && Present(o.submit.value.id)
  }

  /** The outer catch: an `Error`'s message, or a fixed text for anything else thrown. */
  function Caught(f: Fault, query: string): (r: SqlQueryResult)
    ensures r.columns == [] && r.rows == [] && r.query == Some(query)
    ensures f.ErrorFault? ==> r.error == Some(f.message)
    ensures f.OtherFault? ==> r.error == Some(UnknownFaultMessage)
  {
    ErrorResult(match f case ErrorFault(m) => m case OtherFault => UnknownFaultMessage, query)
  }

  /** `resultResponse.ColumnMetadata?.map(col => col.name || '') || []`. */
  function ColumnsOf(r: ResultResponse): seq<string> {
    match r.columnMetadata
    case Some(meta) => ColumnNames(meta)
    case None => []
  }

  /** The rows of a fetched result, one per record. */
  function RowsOf(columns: seq<string>, records: Option<seq<seq<Field>>>): seq<Row> {
    match records
    case None => []
    case Some(rs) => seq(|rs|, j requires 0 <= j < |rs| => RowOf(columns, rs[j]))
  }

  datatype Execution = Execution(result: SqlQueryResult, calls: seq<Call>)

  /** Reference definition of one execution: the envelope returned and the
      upstream calls made, as a function of the request and the oracle. */
  function Execute(credentials: DatabaseCredentials, query: string, accessKeyId: string,
                   secretAccessKey: string, oracle: Oracle): (e: Execution)
    requires |oracle.statuses| >= MaxAttempts
    ensures e.result.query == Some(query)
    ensures e.result.error.Some? ==> e.result.columns == [] && e.result.rows == []
    ensures e.result.error.None? ==> e.calls != [] && e.calls[|e.calls| - 1].Fetch?
  {
    if !CredentialsPresent(credentials) then
      Execution(ErrorResult(MissingCredentialsMessage, query), [])
    else
      var host := credentials.host.value;
      var parts := Split(host, '.');
      if |parts| < 2 then
        Execution(ErrorResult(InvalidHostMessage, query), [])
      else
        var setup := [BuildClient(Region(host), accessKeyId, secretAccessKey),
                      Submit(parts[0], credentials.database.value, query, credentials.schema)];
        match oracle.submit
        case Threw(f) => Execution(Caught(f, query), setup)
        case Returned(submitted) =>
          if !Present(submitted.id) then
            Execution(Caught(ErrorFault(NoStatementIdMessage), query), setup)
          else
            AfterSubmission(submitted.id.value, query, setup, oracle)
  }

  /** The part of `Execute` after a statement id was obtained, given the
      calls made so far. */
  function AfterSubmission(id: string, query: string, before: seq<Call>, oracle: Oracle): Execution
    requires |oracle.statuses| >= MaxAttempts
  {
    var poll := ExpectedPoll(oracle.statuses);
    var polled := before + PollTrace(id, poll.calls);
    match poll.outcome
    case Crashed(f) => Execution(Caught(f, query), polled)
    case Failed(reason) => Execution(ErrorResult(reason, query), polled)
    case TimedOut => Execution(ErrorResult(TimeoutMessage, query), polled)
    case Succeeded(_) => AfterFetch(query, polled + [Fetch(id)], oracle.fetch)
  }

  /** The part of `Execute` after the result fetch was issued. */
  function AfterFetch(query: string, before: seq<Call>, fetch: Reply<ResultResponse>): Execution {
    match fetch
    case Threw(f) => Execution(Caught(f, query), before)
    case Returned(response) =>
      var columns := ColumnsOf(response);
      Execution(SqlQueryResult(columns, RowsOf(columns, response.records), None, Some(query)), before)
  }

  /** `executeSqlQuery`: the sequential flow, with the poll loop and the row
      construction as methods. Each `return` below is one exit of the
      source's try block or of its catch. */
  method ExecuteSqlQuery(credentials: DatabaseCredentials, query: string, awsAccessKeyId: string,
                         awsSecretAccessKey: string, oracle: Oracle)
    returns (result: SqlQueryResult, calls: seq<Call>)
    requires |oracle.statuses| >= MaxAttempts
    ensures Execution(result, calls) == Execute(credentials, query, awsAccessKeyId, awsSecretAccessKey, oracle)
  {
    calls := [];
    if !Present(credentials.host) || !Present(credentials.database) || !Present(credentials.user) {
      return ErrorResult(MissingCredentialsMessage, query), calls;
    }
    var host := credentials.host.value;
    var hostParts := Split(host, '.');
    if |hostParts| < 2 {
      return ErrorResult(InvalidHostMessage, query), calls;
    }
    var clusterIdentifier := hostParts[0];
    var region := Region(host);
    calls := calls + [BuildClient(region, awsAccessKeyId, awsSecretAccessKey)];
    calls := calls + [Submit(clusterIdentifier, credentials.database.value, query, credentials.schema)];
    if oracle.submit.Threw? {
      return Caught(oracle.submit.fault, query), calls;
    }
    var statementId := oracle.submit.value.id;
    if !Present(statementId) {
      return Caught(ErrorFault(NoStatementIdMessage), query), calls;
    }
    assert calls == [BuildClient(region, awsAccessKeyId, awsSecretAccessKey),
                     Submit(clusterIdentifier, credentials.database.value, query, credentials.schema)];
    assert Execute(credentials, query, awsAccessKeyId, awsSecretAccessKey, oracle)
        == AfterSubmission(statementId.value, query, calls, oracle);
    ghost var submitted := calls;
    var outcome, pollCalls := PollStatus(statementId.value, oracle.statuses);
    calls := calls + pollCalls;
    match outcome {
      case Crashed(f) =>
        return Caught(f, query), calls;
      case Failed(reason) =>
        return ErrorResult(reason, query), calls;
      case TimedOut =>
        return ErrorResult(TimeoutMessage, query), calls;
      case Succeeded(_) =>
    }
    calls := calls + [Fetch(statementId.value)];
    assert AfterSubmission(statementId.value, query, submitted, oracle) == AfterFetch(query, calls, oracle.fetch);
    result, calls := FetchResult(query, calls, oracle.fetch);
  }

  /** The result fetch and the construction of the success envelope; a
      fetch that throws goes to the catch. */
  method FetchResult(query: string, before: seq<Call>, fetch: Reply<ResultResponse>)
    returns (result: SqlQueryResult, calls: seq<Call>)
    ensures Execution(result, calls) == AfterFetch(query, before, fetch)
  {
    calls := before;
    if fetch.Threw? {
      return Caught(fetch.fault, query), calls;
    }
    var response := fetch.value;
    var columns := ColumnsOf(response);
    var rows := BuildRows(columns, response.records);
    assert rows == RowsOf(columns, response.records);
    result := SqlQueryResult(columns, rows, None, Some(query));
  }

  /** Missing credentials and a host without a dot are rejected before any
      upstream call, and they are the only requests that make none. */
  lemma RejectedBeforeAnyCall(c: DatabaseCredentials, query: string, key: string, secret: string, o: Oracle)
    requires |o.statuses| >= MaxAttempts
    ensures !CredentialsPresent(c) ==>
      Execute(c, query, key, secret, o) == Execution(ErrorResult(MissingCredentialsMessage, query), [])
    ensures CredentialsPresent(c) && '.' !in c.host.value ==>
      Execute(c, query, key, secret, o) == Execution(ErrorResult(InvalidHostMessage, query), [])
    ensures Execute(c, query, key, secret, o).calls == [] <==> !Accepted(c)
  {
  }

  /** The client is built for the parsed region and the statement is
      submitted to the workgroup named by the host's first segment. */
  lemma SubmissionTarget(c: DatabaseCredentials, query: string, key: string, secret: string, o: Oracle)
    requires |o.statuses| >= MaxAttempts
    requires Accepted(c)
    ensures var calls := Execute(c, query, key, secret, o).calls;
      var host := c.host.value;
      |calls| >= 2
      && calls[0] == BuildClient(Region(host), key, secret)
      && calls[1] == Submit(host[..FirstIndex(host, '.')], c.database.value, query, c.schema)
  {
    ClusterIdentifierIsFirstSegment(c.host.value);
  }

  /** The number of status calls is the poller's count once a statement id
      is obtained, and zero otherwise; never more than 30. */
  lemma StatusCallCount(c: DatabaseCredentials, query: string, key: string, secret: string, o: Oracle)
    requires |o.statuses| >= MaxAttempts
    ensures CountDescribes(Execute(c, query, key, secret, o).calls) ==
      if Accepted(c) && Submitted(o) then ExpectedPoll(o.statuses).calls else 0
    ensures CountDescribes(Execute(c, query, key, secret, o).calls) <= MaxAttempts
  {
    var e := Execute(c, query, key, secret, o);
    if Accepted(c) {
      var host := c.host.value;
      var setup := [BuildClient(Region(host), key, secret),
                    Submit(Split(host, '.')[0], c.database.value, query, c.schema)];
      assert CountDescribes(setup[..1]) == 0 by {
        assert setup[..1][..0] == [];
      }
      assert CountDescribes(setup) == 0;
      if Submitted(o) {
        var id := o.submit.value.id.value;
        var n := ExpectedPoll(o.statuses).calls;
        PollTraceShape(id, n);
        CountDescribesAppend(setup, PollTrace(id, n));
        if ExpectedPoll(o.statuses).outcome.Succeeded? {
          CountDescribesAppend(setup + PollTrace(id, n), [Fetch(id)]);
          assert [Fetch(id)][..0] == [];
        }
      }
    }
  }

  /** A submission that throws, or answers without a usable statement id,
      ends the request after client construction and submission with the
      caught error; no status call is made. */
  lemma MissingStatementIdEnvelope(c: DatabaseCredentials, query: string, key: string, secret: string, o: Oracle)
    requires |o.statuses| >= MaxAttempts && Accepted(c) && !Submitted(o)
    ensures Execute(c, query, key, secret, o).result ==
      if o.submit.Threw? then Caught(o.submit.fault, query)
      else ErrorResult(NoStatementIdMessage, query)
    ensures |Execute(c, query, key, secret, o).calls| == 2
    ensures CountDescribes(Execute(c, query, key, secret, o).calls) == 0
  {
    StatusCallCount(c, query, key, secret, o);
  }

  /** A status call that throws, before the limit, reaches the outer catch
      after k + 1 status calls, without a result fetch. */
  lemma StatusCallThrows(c: DatabaseCredentials, query: string, key: string, secret: string, o: Oracle, k: nat)
    requires |o.statuses| >= MaxAttempts && Accepted(c) && Submitted(o)
    requires k < MaxAttempts
    requires forall i :: 0 <= i < k ==> !Settles(o.statuses[i])
    requires o.statuses[k].Threw?
    ensures Execute(c, query, key, secret, o).result == Caught(o.statuses[k].fault, query)
    ensures CountDescribes(Execute(c, query, key, secret, o).calls) == k + 1
    ensures NoFetch(Execute(c, query, key, secret, o).calls)
  {
    SettleIndexIs(o.statuses, k);
    StatusCallCount(c, query, key, secret, o);
    PollTraceHasNoFetch(o.submit.value.id.value, k + 1);
  }

  /** A result fetch that throws, after a successful poll, reaches the outer
      catch; the fetch is the last call made. */
  lemma FetchThrows(c: DatabaseCredentials, query: string, key: string, secret: string, o: Oracle)
    requires |o.statuses| >= MaxAttempts && Accepted(c) && Submitted(o)
    requires ExpectedPoll(o.statuses).outcome.Succeeded?
    requires o.fetch.Threw?
    ensures Execute(c, query, key, secret, o).result == Caught(o.fetch.fault, query)
    ensures var calls := Execute(c, query, key, secret, o).calls;
      calls != [] && calls[|calls| - 1] == Fetch(o.submit.value.id.value)
  {
  }

  /** No fetch appears in a trace. */
  ghost predicate NoFetch(calls: seq<Call>) {
    forall i :: 0 <= i < |calls| ==> !calls[i].Fetch?
  }

  lemma {:induction false} PollTraceHasNoFetch(id: string, n: nat)
    ensures NoFetch(PollTrace(id, n))
  {
    if n > 0 {
      PollTraceHasNoFetch(id, n - 1);
    }
  }

  /** A FAILED status before the 30th call returns its reason (or the default)
      at once, after k + 1 status calls and without fetching. */
  lemma FailedStatusEnvelope(c: DatabaseCredentials, query: string, key: string, secret: string, o: Oracle, k: nat)
    requires |o.statuses| >= MaxAttempts && Accepted(c) && Submitted(o)
    requires k < MaxAttempts
    requires forall i :: 0 <= i < k ==> !Settles(o.statuses[i])
    requires o.statuses[k].Returned? && StatusText(o.statuses[k].value) == FailedStatus
    ensures Execute(c, query, key, secret, o).result == ErrorResult(FailureReason(o.statuses[k].value), query)
    ensures CountDescribes(Execute(c, query, key, secret, o).calls) == k + 1
    ensures NoFetch(Execute(c, query, key, secret, o).calls)
  {
    PollFailed(o.statuses, k);
    StatusCallCount(c, query, key, secret, o);
    PollTraceHasNoFetch(o.submit.value.id.value, k + 1);
  }

  /** When the 30th status call is made and does not answer FAILED or throw,
      the result is the timeout envelope, even if that last status was a
      terminal success, and no result is fetched. */
  lemma TimeoutEnvelope(c: DatabaseCredentials, query: string, key: string, secret: string, o: Oracle)
    requires |o.statuses| >= MaxAttempts && Accepted(c) && Submitted(o)
    requires forall i :: 0 <= i < MaxAttempts - 1 ==> !Settles(o.statuses[i])
    requires o.statuses[MaxAttempts - 1].Returned? && StatusText(o.statuses[MaxAttempts - 1].value) != FailedStatus
    ensures Execute(c, query, key, secret, o).result == ErrorResult(TimeoutMessage, query)
    ensures CountDescribes(Execute(c, query, key, secret, o).calls) == MaxAttempts
    ensures NoFetch(Execute(c, query, key, secret, o).calls)
  {
    PollTimedOut(o.statuses);
    StatusCallCount(c, query, key, secret, o);
    PollTraceHasNoFetch(o.submit.value.id.value, MaxAttempts);
  }

  /** An envelope without an error comes exactly from a completed poll and a
      fetch that returned; its columns are the metadata names in order and
      it has one row per record, built by `RowOf`. */
  lemma SuccessEnvelope(c: DatabaseCredentials, query: string, key: string, secret: string, o: Oracle)
    requires |o.statuses| >= MaxAttempts
    ensures Execute(c, query, key, secret, o).result.error.None? <==>
      Accepted(c) && Submitted(o) && ExpectedPoll(o.statuses).outcome.Succeeded? && o.fetch.Returned?
    ensures Execute(c, query, key, secret, o).result.error.None? ==>
      var r := Execute(c, query, key, secret, o).result;
      var response := o.fetch.value;
      r.columns == ColumnsOf(response)
      && |r.rows| == (if response.records.Some? then |response.records.value| else 0)
      && (forall j :: 0 <= j < |r.rows| ==> r.rows[j] == RowOf(r.columns, response.records.value[j]))
  {
  }

  /** With distinct column names and one field per column in every record,
      each row of a successful envelope has exactly the declared columns as
      keys and field i of its record under column i. */
  lemma SuccessRowsAreColumnKeyed(c: DatabaseCredentials, query: string, key: string, secret: string, o: Oracle)
    requires |o.statuses| >= MaxAttempts
    requires Execute(c, query, key, secret, o).result.error.None?
    requires o.fetch.Returned? && o.fetch.value.records.Some?
    requires forall a, b :: 0 <= a < b < |ColumnsOf(o.fetch.value)| ==> ColumnsOf(o.fetch.value)[a] != ColumnsOf(o.fetch.value)[b]
    requires forall j :: 0 <= j < |o.fetch.value.records.value| ==> |o.fetch.value.records.value[j]| == |ColumnsOf(o.fetch.value)|
    ensures var r := Execute(c, query, key, secret, o).result;
      var records := o.fetch.value.records.value;
      |r.rows| == |records|
      && forall j :: 0 <= j < |records| ==>
           r.rows[j].Keys == (set name | name in r.columns)
           && forall i :: 0 <= i < |r.columns| ==> r.rows[j][r.columns[i]] == Decode(records[j][i])
  {
    SuccessEnvelope(c, query, key, secret, o);
    var r := Execute(c, query, key, secret, o).result;
    var records := o.fetch.value.records.value;
    forall j | 0 <= j < |records|
      ensures r.rows[j].Keys == (set name | name in r.columns)
      ensures forall i :: 0 <= i < |r.columns| ==> r.rows[j][r.columns[i]] == Decode(records[j][i])
    {
      RowOfDistinctColumns(r.columns, records[j]);
    }
  }

  /** A status answer carrying only a status. */
  function Reported(status: string): Reply<StatusResponse> {
    Returned(StatusResponse(Some(status), None))
  }

  /** A host without a dot is rejected with the host-format message. */
  lemma HostWithoutDotScenario(c: DatabaseCredentials, query: string, key: string, secret: string, o: Oracle)
    requires |o.statuses| >= MaxAttempts
    requires c.host == Some("wh1") && Present(c.database) && Present(c.user)
    ensures Execute(c, query, key, secret, o) == Execution(ErrorResult(InvalidHostMessage, query), [])
  {
    assert "wh1"[0] != '.' && "wh1"[1] != '.' && "wh1"[2] != '.';
    RejectedBeforeAnyCall(c, query, key, secret, o);
  }

  /** SUBMITTED, PICKED, FINISHED: three status calls, then the fetch. */
  lemma ThreeStatusesScenario(c: DatabaseCredentials, query: string, key: string, secret: string, o: Oracle)
    requires |o.statuses| >= MaxAttempts && Accepted(c) && Submitted(o)
    requires o.statuses[..3] == [Reported("SUBMITTED"), Reported("PICKED"), Reported("FINISHED")]
    ensures CountDescribes(Execute(c, query, key, secret, o).calls) == 3
    ensures var calls := Execute(c, query, key, secret, o).calls;
      calls[|calls| - 1] == Fetch(o.submit.value.id.value)
  {
    assert o.statuses[0] == Reported("SUBMITTED") && o.statuses[1] == Reported("PICKED");
    assert o.statuses[2] == Reported("FINISHED");
    PollSucceeded(o.statuses, 2);
    StatusCallCount(c, query, key, secret, o);
  }

  /** STARTED on every one of the 30 checks: timeout after exactly 30 status calls. */
  lemma AlwaysStartedScenario(c: DatabaseCredentials, query: string, key: string, secret: string, o: Oracle)
    requires |o.statuses| >= MaxAttempts && Accepted(c) && Submitted(o)
    requires forall i :: 0 <= i < MaxAttempts ==> o.statuses[i] == Reported("STARTED")
    ensures Execute(c, query, key, secret, o).result == ErrorResult(TimeoutMessage, query)
    ensures CountDescribes(Execute(c, query, key, secret, o).calls) == MaxAttempts
  {
    TimeoutEnvelope(c, query, key, secret, o);
  }

  /** FAILED with a reported reason: that reason is the envelope's error. */
  lemma SyntaxErrorScenario(c: DatabaseCredentials, query: string, key: string, secret: string, o: Oracle)
    requires |o.statuses| >= MaxAttempts && Accepted(c) && Submitted(o)
    requires o.statuses[0] == Returned(StatusResponse(Some("FAILED"), Some("syntax error")))
    ensures Execute(c, query, key, secret, o).result == SqlQueryResult([], [], Some("syntax error"), Some(query))
  {
    FailedStatusEnvelope(c, query, key, secret, o, 0);
  }
}
