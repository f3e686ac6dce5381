# Redshift Data API executor, modelled in Dafny

This project models `executeSqlQuery` in `src/services/redshift.ts`. It is the part of the gateway that runs one SQL statement on an Amazon Redshift workgroup through the asynchronous Redshift Data API. It always hands back a `SqlQueryResult` envelope, with `columns`, `rows`, an optional `error` and the echoed `query`. The flow has five steps:

1. Credential validation: host, database and user must be present and non-empty.
2. Host parsing: the workgroup is the first dot segment. The region is the group captured by `/\.([a-z0-9-]+)\.redshift/`, or `us-east-1` when the pattern does not match.
3. Submission, then a bounded status-polling loop of at most 30 `DescribeStatement` calls.
4. One `GetStatementResult` fetch.
5. Decoding of every typed field into column-keyed rows.

Every failure, thrown faults included, becomes an error envelope.

The three upstream calls are answered by an `Oracle` value:
- the submission reply;
- the sequence of status replies, taken in order;
- the fetch reply.

Any reply may instead be a thrown fault. An execution is therefore a function of the request and the oracle. `RedshiftExecutor.Execute` gives the envelope together with the trace of upstream interactions, which are client construction, submission, delay, status call and fetch.

Modules, one file each:
- `types.dfy` (`Types`): credentials, decoded values and the envelope, from `src/types.ts`.
- `data_api.dfy` (`DataApi`): the Data API request and response shapes, faults, the oracle and the call trace.
- `host_format.dfy` (`HostFormat`): `split('.')`, the workgroup identifier and the region pattern.
- `field_decoder.dfy` (`FieldDecoder`): the per-field decoder and row construction. `BuildRows` is a method with nested loops.
- `statement_poller.dfy` (`StatementPoller`): the poll loop as the method `PollStatus`, proved against the reference definition `ExpectedPoll`.
- `executor.dfy` (`RedshiftExecutor`): the method `ExecuteSqlQuery`, proved equal to the reference function `Execute`, and the end-to-end lemmas.

Three behaviours of the code that a reader might not expect:
- The timeout test after the loop is `attempts >= maxAttempts`. If the 30th status call reports a terminal success such as `FINISHED`, the result is still the timeout envelope (`ThirtiethFinishedTimesOut`, `TimeoutEnvelope`).
- The region pattern needs the literal text `.redshift` after the region segment. A host whose service domain is spelled differently falls back to `us-east-1`.
- A statement id that is the empty string counts as missing, because the check is JavaScript falsiness. It leads to the caught error `Failed to get statement ID from Redshift`.

## Model

| member | source | states |
|---|---|---|
| HostFormat.FirstIndex | src/services/redshift.ts:35 | the result is the least index holding the character, or the length when there is none |
| HostFormat.Split | src/services/redshift.ts:25-26 | the parts joined with '.' give back the host, no part contains '.', the first part is the text before the first '.', and there is one part exactly when the host has no '.' |
| HostFormat.TwoPartsIffDot | src/services/redshift.ts:25-26 | the host has at least two dot-separated parts exactly when it contains a '.' |
| HostFormat.ClusterIdentifierIsFirstSegment | src/services/redshift.ts:35 | the workgroup identifier is the host's text before its first '.', contains no '.', and is followed by '.' when the host has one |
| HostFormat.RunEnd | src/services/redshift.ts:36 | the result ends the maximal run of `[a-z0-9-]` characters starting at the given index |
| HostFormat.MatchAtIsPattern | src/services/redshift.ts:36 | trying the pattern at one index succeeds exactly when the regex can match there, and the capture is the only group such a match can have |
| HostFormat.FirstMatchFindsLeftmost | src/services/redshift.ts:36 | the scan returns the capture of the leftmost match at or after its start index |
| HostFormat.FirstMatchFindsNothing | src/services/redshift.ts:36-37 | when no match starts at or after its start index, the scan finds nothing |
| HostFormat.RegionIsLeftmostCapture | src/services/redshift.ts:36-37 | the region is the group of the leftmost match of `\.([a-z0-9-]+)\.redshift`, and "us-east-1" when nothing matches |
| HostFormat.ClusterOfServerlessHost | src/services/redshift.ts:30-35 | for the host format the error message documents, the workgroup identifier is "wh1" |
| HostFormat.RegionOfServerlessHost | src/services/redshift.ts:36-37 | for the same host, the region is "us-west-2" |
| FieldDecoder.Decode | src/services/redshift.ts:110-115 | the decoded value is the first value tag present in the order string, long, double, boolean, and null when none is present |
| FieldDecoder.DecodeEncode | src/services/redshift.ts:110-115 | decoding inverts the warehouse's one-tag encoding of every value, and that encoding is well formed |
| FieldDecoder.EncodeDecode | src/services/redshift.ts:110-115 | every well-formed field (one value tag, or only the null flag) is the encoding of what it decodes to |
| FieldDecoder.DecodeNullIffNoValueTag | src/services/redshift.ts:110-115 | the decoder always yields a value, and it is null exactly when none of the four value tags is set |
| FieldDecoder.StringTagWins | src/services/redshift.ts:111-115 | a field with both string "5" and long 5 decodes to "5", and a field with only the null flag decodes to null |
| FieldDecoder.ColumnNames | src/services/redshift.ts:102 | one name per metadata entry, in order, with a missing or empty name becoming "" |
| FieldDecoder.RowOfKeys | src/services/redshift.ts:106-118 | a row's keys are exactly the column keys of its field positions, "undefined" past the last column |
| FieldDecoder.RowOfLastWrite | src/services/redshift.ts:108-118 | field i's decoded value is stored under its column key unless a later field writes the same key |
| FieldDecoder.RowOfSize | src/services/redshift.ts:106-118 | with distinct column names, a row built from n fields, no more than there are columns, has n keys |
| FieldDecoder.RowOfDistinctColumns | src/services/redshift.ts:106-119 | with distinct names and one field per column, the row's keys are exactly the columns and field i is stored under column i |
| FieldDecoder.BuildRows | src/services/redshift.ts:103-121 | no rows when the records are absent; otherwise one row per record, in order, each the column-keyed row of its record |
| StatementPoller.SettleIndex | src/services/redshift.ts:65-73 | the result is the index of the first status answer that ends the loop (a throw, or a status not in STARTED/SUBMITTED/PICKED with a missing status read as ""), or the length when there is none |
| StatementPoller.ExpectedPoll | src/services/redshift.ts:61-94 | the reference poll makes between 1 and 30 status calls |
| StatementPoller.PollTraceShape | src/services/redshift.ts:65-72 | n polling rounds are n delays, each followed by a status call for the statement id, with exactly n status calls |
| StatementPoller.PollStatus | src/services/redshift.ts:61-94 | the loop's outcome and its delays and status calls are those of the reference poll |
| StatementPoller.PollCallCount | src/services/redshift.ts:61-85 | at most 30 status calls; all but the last were pending, and the last ended the loop or was the 30th |
| StatementPoller.PollFailed | src/services/redshift.ts:75-82 | a FAILED answer before the limit ends polling at once with the reported error, or "Query execution failed" when none is reported |
| StatementPoller.PollSucceeded | src/services/redshift.ts:65-94 | a status that is neither pending nor FAILED, seen on one of the first 29 calls, is success after that many calls |
| StatementPoller.PollTimedOut | src/services/redshift.ts:84-94 | polling times out exactly when the first 29 answers are pending and the 30th returns anything but FAILED |
| StatementPoller.ThirtiethFinishedTimesOut | src/services/redshift.ts:84-94 | 29 STARTED answers followed by FINISHED still give a timeout after 30 calls |
| RedshiftExecutor.Execute | src/services/redshift.ts:9-136 | every envelope echoes the query; an error envelope has no columns and no rows; an envelope without an error comes after a result fetch |
| RedshiftExecutor.ExecuteSqlQuery | src/services/redshift.ts:9-136 | the executor returns the reference envelope and makes exactly the reference sequence of upstream calls |
| RedshiftExecutor.FetchResult | src/services/redshift.ts:96-123 | a fetch that throws gives the caught error envelope; otherwise the envelope has the metadata names as columns, one column-keyed row per record, no error and the query |
| RedshiftExecutor.Caught | src/services/redshift.ts:124-135 | a caught fault gives an envelope with no columns and no rows, the echoed query, and as error the `Error`'s message or "Failed to execute SQL query." for anything else thrown |
| RedshiftExecutor.StatusCallThrows | src/services/redshift.ts:124-135 | a status call that throws on call k+1 (k < 30, earlier answers pending) gives the caught envelope after k+1 status calls, without a result fetch |
| RedshiftExecutor.FetchThrows | src/services/redshift.ts:124-135 | a result fetch that throws after a successful poll gives the caught envelope, the fetch being the last call |
| RedshiftExecutor.RejectedBeforeAnyCall | src/services/redshift.ts:16-33 | missing credentials give the missing-credentials envelope and a dotless host gives the host-format envelope, both without any upstream call; these are the only requests that make no call |
| RedshiftExecutor.SubmissionTarget | src/services/redshift.ts:35-54 | the client is built for the parsed region with the given keys, and the statement is submitted to the host's first segment with the database, the query and the schema |
| RedshiftExecutor.StatusCallCount | src/services/redshift.ts:57-85 | the number of status calls is the poll's count once a statement id is obtained, zero otherwise, and never more than 30 |
| RedshiftExecutor.FailedStatusEnvelope | src/services/redshift.ts:75-82 | FAILED on call k+1 returns the reported reason (or the default) after k+1 status calls, without a result fetch |
| RedshiftExecutor.TimeoutEnvelope | src/services/redshift.ts:84-94 | 29 pending answers followed by any answer that is not FAILED or a throw give the timeout envelope after 30 status calls, without a result fetch |
| RedshiftExecutor.SuccessEnvelope | src/services/redshift.ts:96-123 | no error exactly when the credentials and host pass, an id is obtained, polling succeeds and the fetch returns; then the columns are the metadata names and there is one row per record |
| RedshiftExecutor.SuccessRowsAreColumnKeyed | src/services/redshift.ts:102-123 | with distinct names and one field per column, each row's keys are exactly the columns and field i of the record is stored under column i |
| RedshiftExecutor.MissingStatementIdEnvelope | src/services/redshift.ts:54-59 | a submission that throws or returns no usable id ends after client construction and submission, with the caught error envelope |
| RedshiftExecutor.HostWithoutDotScenario | src/services/redshift.ts:25-33 | host "wh1" gives the host-format envelope and no call |
| RedshiftExecutor.ThreeStatusesScenario | src/services/redshift.ts:61-100 | SUBMITTED, PICKED, FINISHED give exactly three status calls followed by the result fetch |
| RedshiftExecutor.AlwaysStartedScenario | src/services/redshift.ts:61-94 | thirty STARTED answers give the timeout envelope after exactly thirty status calls |
| RedshiftExecutor.SyntaxErrorScenario | src/services/redshift.ts:75-82 | FAILED with reason "syntax error" gives an envelope with no columns and no rows, error "syntax error" and the query |

## Left out

- The AWS SDK client and its credentials are reduced to a `BuildClient(region, keyId, secret)` trace step. Nothing about request signing or transport is modelled.
- The 500 ms `setTimeout` is a `Delay` trace step with no timing meaning. `async`/`await` only sequences the steps and is not modelled as concurrency.
- `console.error` in the catch block is left out: it is logging only.
- Floating-point values are kept as an opaque 64-bit pattern (`Float64`), because their numeric meaning plays no part in decoding.
- A long value is an unbounded integer. JavaScript's loss of precision above 2^53 is not modelled.
- A row is a Dafny `map`, so JavaScript's key insertion order is not modelled. Neither is the special meaning of a `__proto__` key on a plain object.
- The oracle must answer at least 30 status calls (`requires |statuses| >= 30` on `PollStatus`, `ExpectedPoll`, `Execute` and the lemmas about them). This makes the upstream service total. It does not restrict the requests the executor accepts.
- A `host` that is truthy but not a string, which would make `split` throw, is not modelled: the declared type is string.
- `src/index.ts` (HTTP routing, CORS, credential presets read from the environment with `JSON.parse`), `src/services/postgres.ts` (a wrapper around the `pg` client) and `src/services/openai.ts` (a single forwarding `fetch`) are glue around external services and are not part of this model.
