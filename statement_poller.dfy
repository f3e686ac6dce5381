/** The bounded status-polling state machine: after submission, wait and ask
    for the statement's status until it leaves the pending states, reports
    FAILED, or 30 attempts have been made. */
module StatementPoller {
  import opened Types
  import opened DataApi

  const MaxAttempts: nat := 30
  const FailedStatus := "FAILED"
  const DefaultFailureReason := "Query execution failed"

  predicate IsPending(status: string) {
    status == "STARTED" || status == "SUBMITTED" || status == "PICKED"
  }

  /** `describeResponse.Status || ''`: a missing status reads as "". */
  function StatusText(r: StatusResponse): string {
    OrElse(r.status, "")
  }

  /** `describeResponse.Error || 'Query execution failed'`. */
  function FailureReason(r: StatusResponse): string {
    OrElse(r.error, DefaultFailureReason)
  }

  /** A status call after which the loop does not ask again: it threw, or
      it reported a status that is not pending. */
  predicate Settles(reply: Reply<StatusResponse>) {
    reply.Threw? || !IsPending(StatusText(reply.value))
  }

  /** Index of the first settling answer, |statuses| when there is none. */
  function SettleIndex(statuses: seq<Reply<StatusResponse>>): (k: nat)
    ensures k <= |statuses|
    ensures forall i :: 0 <= i < k ==> !Settles(statuses[i])
    ensures k < |statuses| ==> Settles(statuses[k])
  {
    if statuses == [] then 0
    else if Settles(statuses[0]) then 0
    else 1 + SettleIndex(statuses[1..])
  }

  /** How polling ends. `Crashed` is a status call that threw. */
  datatype PollOutcome = Succeeded(status: string) | Failed(reason: string) | TimedOut | Crashed(fault: Fault)

  datatype Poll = Poll(outcome: PollOutcome, calls: nat)

  /** Reference definition of polling: the loop stops after the first
      settling answer or after 30 calls, whichever comes first; the last
      answer decides the outcome, except that the attempt counter reaching
      30 turns any answer that is not FAILED into a timeout. */
  function ExpectedPoll(statuses: seq<Reply<StatusResponse>>): (p: Poll)
    requires |statuses| >= MaxAttempts
    ensures 1 <= p.calls <= MaxAttempts
  {
    var k := SettleIndex(statuses);
    var n := if k < MaxAttempts then k + 1 else MaxAttempts;
    var last := statuses[n - 1];
    var outcome :=
      if last.Threw? then Crashed(last.fault)
      else if StatusText(last.value) == FailedStatus then Failed(FailureReason(last.value))
      else if n == MaxAttempts then TimedOut
      else Succeeded(StatusText(last.value));
    Poll(outcome, n)
  }

  /** The calls one poll makes: each status call preceded by the fixed delay. */
  function PollTrace(id: string, n: nat): seq<Call> {
    if n == 0 then [] else PollTrace(id, n - 1) + [Delay, Describe(id)]
  }

  lemma {:induction false} PollTraceShape(id: string, n: nat)
    ensures |PollTrace(id, n)| == 2 * n
    ensures CountDescribes(PollTrace(id, n)) == n
    ensures forall i :: 0 <= i < n ==> PollTrace(id, n)[2 * i] == Delay && PollTrace(id, n)[2 * i + 1] == Describe(id)
  {
    if n > 0 {
      PollTraceShape(id, n - 1);
      CountDescribesAppend(PollTrace(id, n - 1), [Delay, Describe(id)]);
      assert CountDescribes([Delay, Describe(id)]) == 1 by {
        assert [Delay, Describe(id)][..1] == [Delay];
        assert [Delay][..0] == [];
      }
    }
  }

  lemma SettleIndexIs(statuses: seq<Reply<StatusResponse>>, k: nat)
    requires k < |statuses| && Settles(statuses[k])
    requires forall i :: 0 <= i < k ==> !Settles(statuses[i])
    ensures SettleIndex(statuses) == k
  {
  }

  /** The poll loop. It returns as soon as a status call throws or reports
      FAILED; otherwise it decides between success and timeout once the
      loop has ended. */
  method PollStatus(id: string, statuses: seq<Reply<StatusResponse>>) returns (outcome: PollOutcome, trace: seq<Call>)
    requires |statuses| >= MaxAttempts
    ensures outcome == ExpectedPoll(statuses).outcome
    ensures trace == PollTrace(id, ExpectedPoll(statuses).calls)
  {
    var status := "STARTED";
    var attempts: nat := 0;
    trace := [];
    while IsPending(status) && attempts < MaxAttempts
      invariant attempts <= MaxAttempts
      invariant trace == PollTrace(id, attempts)
      invariant attempts == 0 ==> status == "STARTED"
      invariant attempts > 0 ==>
                  statuses[attempts - 1].Returned?
                  && status == StatusText(statuses[attempts - 1].value)
                  && status != FailedStatus
      invariant forall i :: 0 <= i < attempts - 1 ==> !Settles(statuses[i])
      decreases MaxAttempts - attempts
    {
      trace := trace + [Delay, Describe(id)];
      var reply := statuses[attempts];
      if reply.Threw? {
        SettleIndexIs(statuses, attempts);
        return Crashed(reply.fault), trace;
      }
      status := StatusText(reply.value);
      if status == FailedStatus {
        SettleIndexIs(statuses, attempts);
        return Failed(FailureReason(reply.value)), trace;
      }
      attempts := attempts + 1;
    }
    if !IsPending(status) {
      SettleIndexIs(statuses, attempts - 1);
    }
    if attempts >= MaxAttempts {
      outcome := TimedOut;
    } else {
      outcome := Succeeded(status);
    }
  }

  /** The loop makes at most 30 status calls and stops right after the
      first settling answer: the count is min(first settling index + 1, 30). */
  lemma PollCallCount(statuses: seq<Reply<StatusResponse>>)
    requires |statuses| >= MaxAttempts
    ensures var n := ExpectedPoll(statuses).calls;
      1 <= n <= MaxAttempts
      && (forall i :: 0 <= i < n - 1 ==> !Settles(statuses[i]))
      && (Settles(statuses[n - 1]) || n == MaxAttempts)
  {
  }

  /** FAILED ends polling at once, carrying the reported reason or the default. */
  lemma PollFailed(statuses: seq<Reply<StatusResponse>>, k: nat)
    requires |statuses| >= MaxAttempts && k < MaxAttempts
    requires forall i :: 0 <= i < k ==> !Settles(statuses[i])
    requires statuses[k].Returned? && StatusText(statuses[k].value) == FailedStatus
    ensures ExpectedPoll(statuses) == Poll(Failed(FailureReason(statuses[k].value)), k + 1)
  {
    SettleIndexIs(statuses, k);
  }

  /** A status that is neither pending nor FAILED, seen before the 30th call, is success. */
  lemma PollSucceeded(statuses: seq<Reply<StatusResponse>>, k: nat)
    requires |statuses| >= MaxAttempts && k < MaxAttempts - 1
    requires forall i :: 0 <= i < k ==> !Settles(statuses[i])
    requires statuses[k].Returned? && Settles(statuses[k]) && StatusText(statuses[k].value) != FailedStatus
    ensures ExpectedPoll(statuses) == Poll(Succeeded(StatusText(statuses[k].value)), k + 1)
  {
    SettleIndexIs(statuses, k);
  }

  /** Polling times out exactly when the 30th call is made and answers
      anything but FAILED or a throw, including a terminal success. */
  lemma PollTimedOut(statuses: seq<Reply<StatusResponse>>)
    requires |statuses| >= MaxAttempts
    ensures ExpectedPoll(statuses).outcome == TimedOut <==>
      (forall i :: 0 <= i < MaxAttempts - 1 ==> !Settles(statuses[i]))
      && statuses[MaxAttempts - 1].Returned?
      && StatusText(statuses[MaxAttempts - 1].value) != FailedStatus
  {
    var k := SettleIndex(statuses);
    if forall i :: 0 <= i < MaxAttempts - 1 ==> !Settles(statuses[i]) {
      assert k >= MaxAttempts - 1;
    }
  }

  /** The 30th status call answering FINISHED still times out. */
  lemma ThirtiethFinishedTimesOut(statuses: seq<Reply<StatusResponse>>)
    requires |statuses| >= MaxAttempts
    requires forall i :: 0 <= i < MaxAttempts - 1 ==> statuses[i] == Returned(StatusResponse(Some("STARTED"), None))
    requires statuses[MaxAttempts - 1] == Returned(StatusResponse(Some("FINISHED"), None))
    ensures ExpectedPoll(statuses) == Poll(TimedOut, MaxAttempts)
  {
    SettleIndexIs(statuses, MaxAttempts - 1);
  }
}
