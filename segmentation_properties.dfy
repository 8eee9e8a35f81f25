/** What a run of `segment_jaw` guarantees, stated over `SegmentJawRun`. */
module SegmentationProperties {
  import opened Wrappers
  import HttpStatus
  import Jaw
  import Polling
  import Labels
  import AlignMatrix
  import AlignMatrixExamples
  import opened Segmentation

  /**
   * A run succeeds only if no archive error was reported, the creation and result requests were accepted,
   * and the poll loop ended on a reply whose status is neither a wait nor "Failed", every earlier
   * reply being an accepted wait.  It then sent the creation request, one status request per
   * poll (at least one) and the result request, in that order, and holds one label per element.
   */
  lemma SuccessOnlyAfterCompletion<D>(jawType: char, replies: ServiceReplies<D>, roundToInt: D -> int)
    requires SegmentJawRun(jawType, replies, roundToInt).outcome.Success?
    ensures replies.archiveError.None?
    ensures HttpStatus.Accepted(replies.creationCode) && HttpStatus.Accepted(replies.resultCode)
    ensures var k := Polling.Poll(replies.polls).polls;
      && 1 <= k <= |replies.polls|
      && (forall i :: 0 <= i < k - 1 ==>
            HttpStatus.Accepted(replies.polls[i].code) && Polling.Waiting(replies.polls[i].jobStatus))
      && HttpStatus.Accepted(replies.polls[k - 1].code)
      && !Polling.Waiting(replies.polls[k - 1].jobStatus)
      && replies.polls[k - 1].jobStatus != "Failed"
      && SegmentJawRun(jawType, replies, roundToInt).requests ==
           [CreateJob(Jaw.JawField(jawType), "true")] + StatusRequests(replies.jobId, k) + [ResultRequest(replies.jobId)]
    ensures |SegmentJawRun(jawType, replies, roundToInt).outcome.labels| == |replies.result|
    ensures SegmentJawRun(jawType, replies, roundToInt).outcome.obj == replies.mesh
  {
    Polling.PollDecidedByLastReply(replies.polls);
  }

  /**
   * Every code up to and including 300 is accepted: with no archive error reported, creation and result
   * answered with such codes, and poll replies that are accepted waits up to one with any other
   * status, the run succeeds after exactly k + 1 status requests.
   */
  lemma AcceptedRepliesSucceed<D>(jawType: char, replies: ServiceReplies<D>, roundToInt: D -> int, k: nat)
    requires replies.archiveError.None?
    requires replies.creationCode <= 300 && replies.resultCode <= 300
    requires k < |replies.polls|
    requires forall i :: 0 <= i <= k ==> replies.polls[i].code <= 300
    requires forall i :: 0 <= i < k ==> Polling.Waiting(replies.polls[i].jobStatus)
    requires !Polling.Waiting(replies.polls[k].jobStatus) && replies.polls[k].jobStatus != "Failed"
    ensures SegmentJawRun(jawType, replies, roundToInt) ==
      JawRun(Success(replies.mesh, Labels.LabelList(replies.result, roundToInt), AlignMatrix.Rows(replies.alignMatrix)),
             [CreateJob(Jaw.JawField(jawType), "true")] + StatusRequests(replies.jobId, k + 1) + [ResultRequest(replies.jobId)])
  {
    Polling.PollStopsAtFirstDecision(replies.polls, k);
  }

  /**
   * A failure is reported with the message of the first step that failed, checked in the order
   * the run takes them: the archive, the creation reply, the reply that ended the poll loop (a
   * code above 300 names the status request and the code, otherwise its status was "Failed" and
   * the service's message is passed on), and last the result reply.
   */
  lemma FailureNamesItsCause<D>(jawType: char, replies: ServiceReplies<D>, roundToInt: D -> int)
    requires SegmentJawRun(jawType, replies, roundToInt).outcome.Failure?
    ensures var msg := SegmentJawRun(jawType, replies, roundToInt).outcome.errorMsg;
      var poll := Polling.Poll(replies.polls);
      if replies.archiveError.Some? then msg == replies.archiveError.value
      else if replies.creationCode > 300 then
        msg == HttpStatus.FailureMessage(HttpStatus.Creation, replies.creationCode)
      else if poll.outcome.RequestFailed? || poll.outcome.JobFailed? then
        && 1 <= poll.polls <= |replies.polls|
        && var last := replies.polls[poll.polls - 1];
          if last.code > 300 then msg == HttpStatus.FailureMessage(HttpStatus.Status, last.code)
          else last.jobStatus == "Failed" && msg == "job failed with error: " + last.message
      else
        && poll.outcome.Finished?
        && replies.resultCode > 300
        && msg == HttpStatus.FailureMessage(HttpStatus.Result, replies.resultCode)
  {
    Polling.PollDecidedByLastReply(replies.polls);
  }

  /** The job-creation request carries "Lower" exactly for the jaw code 'L'. */
  lemma CreationRequestNamesJaw<D>(jawType: char, replies: ServiceReplies<D>, roundToInt: D -> int)
    requires replies.archiveError.None?
    ensures var requests := SegmentJawRun(jawType, replies, roundToInt).requests;
      |requests| > 0 && requests[0].CreateJob? &&
      (requests[0].jaw == "Lower" <==> jawType == 'L') &&
      (requests[0].jaw == "Upper" <==> jawType != 'L') &&
      requests[0].preprocess == "true"
  {
  }

  /**
   * The documented end-to-end run: job "abc123", one "InProgress" and one "Completed" status,
   * then a result with a mesh, the labels [1, 1, 2] and an identity align matrix.  Exactly two
   * status requests are sent.
   */
  lemma EndToEnd(mesh: string, roundToInt: int -> int)
    ensures var replies := ServiceReplies(
        None, 200, "abc123",
        [Polling.PollReply(200, "InProgress", ""), Polling.PollReply(200, "Completed", "")],
        200, mesh,
        [Labels.IntNumber(1), Labels.IntNumber(1), Labels.IntNumber(2)],
        "[[1,0],[0,1]]");
      SegmentJawRun('L', replies, roundToInt) ==
        JawRun(Success(mesh, [1, 1, 2], [["1", "0"], ["0", "1"]]),
               [CreateJob("Lower", "true"), StatusRequest("abc123"), StatusRequest("abc123"), ResultRequest("abc123")])
  {
    var replies := ServiceReplies(
        None, 200, "abc123",
        [Polling.PollReply(200, "InProgress", ""), Polling.PollReply(200, "Completed", "")],
        200, mesh,
        [Labels.IntNumber(1), Labels.IntNumber(1), Labels.IntNumber(2)],
        "[[1,0],[0,1]]");
    AcceptedRepliesSucceed('L', replies, roundToInt, 1);
    assert StatusRequests("abc123", 2) == [StatusRequest("abc123"), StatusRequest("abc123")];
    AlignMatrixExamples.TwoRowsOfTwo("1", "0", "0", "1");
    assert "[[" + "1" + "," + "0" + "]" + "," + "[" + "0" + "," + "1" + "]" + "]" == "[[1,0],[0,1]]";
    var labels := Labels.LabelList(replies.result, roundToInt);
    assert labels == [1, 1, 2];
  }
}
