/**
 * The job-status poll loop of `segment_jaw`.  The status starts as "Pending"; while it is
 * "Pending" or "InProgress" the loop waits and asks for the status again.  A reply with a code
 * above 300 aborts the run; a "JobStatus" of "Failed" ends the run with the reply's "Message";
 * any other status ends the loop and the run goes on to fetch the result.
 *
 * The replies the service would give are an input sequence, already reduced to their code and
 * the two fields.  If the sequence runs out while the job is still pending, the model reports
 * `StillPolling`: the program itself would go on polling.
 */
module Polling {
  import Decimal
  import HttpStatus

  datatype PollReply = PollReply(code: int, jobStatus: string, message: string)

  datatype PollOutcome =
    | StillPolling                  // the loop asks again
    | RequestFailed(code: int)      // a status request was answered with a code above 300
    | JobFailed(message: string)    // the service reported the job as "Failed"
    | Finished(status: string)      // any other status: go on to the result

  datatype PollResult = PollResult(outcome: PollOutcome, polls: nat)

  /** The statuses that keep the loop going. */
  predicate Waiting(status: string) {
    status == "Pending" || status == "InProgress"
  }

  /** What one status reply decides. */
  function Classify(reply: PollReply): (o: PollOutcome)
    ensures o.StillPolling? <==> HttpStatus.Accepted(reply.code) && Waiting(reply.jobStatus)
    ensures o.RequestFailed? <==> !HttpStatus.Accepted(reply.code)
    ensures o.JobFailed? <==> HttpStatus.Accepted(reply.code) && reply.jobStatus == "Failed"
    ensures o.Finished? <==>
      HttpStatus.Accepted(reply.code) && !Waiting(reply.jobStatus) && reply.jobStatus != "Failed"
    ensures o.RequestFailed? ==> o.code == reply.code
    ensures o.JobFailed? ==> o.message == reply.message
    ensures o.Finished? ==> o.status == reply.jobStatus
  {
    if !HttpStatus.Accepted(reply.code) then RequestFailed(reply.code)
    else if Waiting(reply.jobStatus) then StillPolling
    else if reply.jobStatus == "Failed" then JobFailed(reply.message)
    else Finished(reply.jobStatus)
  }

  /** The loop run over `replies`: how it ends and how many status requests it made. */
  function Poll(replies: seq<PollReply>): (r: PollResult)
    ensures r.polls <= |replies|
    ensures |replies| > 0 ==> r.polls >= 1
    ensures r.outcome.StillPolling? ==> r.polls == |replies|
    decreases |replies|
  {
    if replies == [] then PollResult(StillPolling, 0)
    else
      var o := Classify(replies[0]);
      if o.StillPolling? then
        var rest := Poll(replies[1..]);
        PollResult(rest.outcome, rest.polls + 1)
      else PollResult(o, 1)
  }

  /** The error message a run ends with after the loop, for the outcomes that fail. */
  function PollError(outcome: PollOutcome): (msg: string)
    requires outcome.RequestFailed? || outcome.JobFailed?
  {
    match outcome
    case RequestFailed(code) => HttpStatus.FailureMessage(HttpStatus.Status, code)
    case JobFailed(message) => "job failed with error: " + message
  }

  /**
   * The loop stops at the first reply that is not a wait: its outcome is that reply's, and the
   * number of polls is that reply's index plus one.
   */
  lemma {:induction false} PollStopsAtFirstDecision(replies: seq<PollReply>, k: nat)
    requires k < |replies|
    requires forall i :: 0 <= i < k ==> Classify(replies[i]).StillPolling?
    requires !Classify(replies[k]).StillPolling?
    ensures Poll(replies) == PollResult(Classify(replies[k]), k + 1)
    decreases k
  {
    if k > 0 {
      PollStopsAtFirstDecision(replies[1..], k - 1);
    }
  }

  /** If every reply is a wait, the loop is still polling after using all of them. */
  lemma {:induction false} PollWaitsThroughout(replies: seq<PollReply>)
    requires forall i :: 0 <= i < |replies| ==> Classify(replies[i]).StillPolling?
    ensures Poll(replies) == PollResult(StillPolling, |replies|)
    decreases |replies|
  {
    if replies != [] {
      PollWaitsThroughout(replies[1..]);
    }
  }

  /**
   * Conversely, whatever the loop reports was decided by reply `polls - 1`, and every earlier
   * reply was a wait.
   */
  lemma {:induction false} PollDecidedByLastReply(replies: seq<PollReply>)
    ensures var r := Poll(replies);
      (forall i :: 0 <= i < r.polls - 1 ==> Classify(replies[i]).StillPolling?) &&
      (r.outcome.StillPolling? ==> forall i :: 0 <= i < |replies| ==> Classify(replies[i]).StillPolling?) &&
      (!r.outcome.StillPolling? ==> r.outcome == Classify(replies[r.polls - 1]))
    decreases |replies|
  {
    if replies != [] && Classify(replies[0]).StillPolling? {
      PollDecidedByLastReply(replies[1..]);
      var r := Poll(replies);
      var rest := Poll(replies[1..]);
      forall i | 0 <= i < r.polls - 1 ensures Classify(replies[i]).StillPolling? {
        if i > 0 {
          assert replies[i] == replies[1..][i - 1];
        }
      }
      if r.outcome.StillPolling? {
        forall i | 0 <= i < |replies| ensures Classify(replies[i]).StillPolling? {
          if i > 0 {
            assert replies[i] == replies[1..][i - 1];
          }
        }
      }
    }
  }

  /**
   * The loop as `segment_jaw` runs it, with its `status` variable starting at "Pending".
   * Returns how the loop ended and how many status requests were answered.
   */
  method PollJob(replies: seq<PollReply>) returns (outcome: PollOutcome, polls: nat)
    ensures PollResult(outcome, polls) == Poll(replies)
  {
    var status := "Pending";
    polls := 0;
    while status == "InProgress" || status == "Pending"
      invariant polls <= |replies|
      invariant forall i :: 0 <= i < polls - 1 ==> Classify(replies[i]).StillPolling?
      invariant polls == 0 ==> status == "Pending"
      invariant polls > 0 ==> status == replies[polls - 1].jobStatus && status != "Failed"
      invariant polls > 0 ==> HttpStatus.Accepted(replies[polls - 1].code)
      decreases |replies| - polls
    {
      assert polls > 0 ==> Classify(replies[polls - 1]).StillPolling?;
      if polls == |replies| {
        PollWaitsThroughout(replies);
        return StillPolling, polls;
      }
      var reply := replies[polls];
      polls := polls + 1;
      if reply.code > HttpStatus.LastAcceptedCode {
        PollStopsAtFirstDecision(replies, polls - 1);
        return RequestFailed(reply.code), polls;
      }
      status := reply.jobStatus;
      if status == "Failed" {
        PollStopsAtFirstDecision(replies, polls - 1);
        return JobFailed(reply.message), polls;
      }
    }
    PollStopsAtFirstDecision(replies, polls - 1);
    outcome := Finished(status);
  }
}
