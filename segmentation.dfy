/**
 * `segment_jaw`: pack the mesh, create the job, poll it until it leaves "Pending"/"InProgress",
 * fetch the result, and fill the caller's outputs from it.  The outputs are references owned by
 * the caller (`obj_`, `label_`, `align_matrix_`, `error_msg_`), modelled as the fields of one
 * object that the method modifies.  The network and the archive library are not called: what
 * they answer is an input, `ServiceReplies`, and the requests the run would send are an output.
 */
module Segmentation {
  import opened Wrappers
  import HttpStatus
  import Jaw
  import Polling
  import Labels
  import AlignMatrix

  /** The caller's output parameters. */
  class JawOutputs {
    var obj: string
    var labels: seq<int>
    var alignMatrix: seq<seq<string>>
    var errorMsg: string

    constructor ()
      ensures obj == "" && labels == [] && alignMatrix == [] && errorMsg == ""
    {
      obj, labels, alignMatrix, errorMsg := "", [], [], "";
    }
  }

  /** The requests a run sends, in order. */
  datatype Request =
    | CreateJob(jaw: string, preprocess: string)  // multipart POST with the zipped mesh
    | StatusRequest(jobId: string)                // GET <server>/<job id>
    | ResultRequest(jobId: string)                // GET <server>/<job id>/result

  /** Everything the outside world answers during one run, already reduced to the fields used. */
  datatype ServiceReplies<D> = ServiceReplies(
    archiveError: Option<string>,            // None when no archive error was reported
    creationCode: int,
    jobId: string,
    polls: seq<Polling.PollReply>,
    resultCode: int,
    mesh: string,
    result: seq<Labels.JsonNumber<D>>,
    alignMatrix: string)

  /** How a run ends: the source's `true`, its `false` with a message, or not yet. */
  datatype Outcome =
    | Success(obj: string, labels: seq<int>, matrix: seq<seq<string>>)
    | Failure(errorMsg: string)
    | StillPolling

  datatype JawRun = JawRun(outcome: Outcome, requests: seq<Request>)

  function StatusRequests(jobId: string, n: nat): (rs: seq<Request>)
    ensures |rs| == n && forall i :: 0 <= i < n ==> rs[i] == StatusRequest(jobId)
  {
    seq(n, _ => StatusRequest(jobId))
  }

  /** What `segment_jaw` does with the given replies: its outcome and the requests it sends. */
  function SegmentJawRun<D>(jawType: char, replies: ServiceReplies<D>, roundToInt: D -> int): JawRun {
    if replies.archiveError.Some? then JawRun(Failure(replies.archiveError.value), [])
    else
      var created := [CreateJob(Jaw.JawField(jawType), "true")];
      if !HttpStatus.Accepted(replies.creationCode) then
        JawRun(Failure(HttpStatus.FailureMessage(HttpStatus.Creation, replies.creationCode)), created)
      else
        var poll := Polling.Poll(replies.polls);
        var polled := created + StatusRequests(replies.jobId, poll.polls);
        match poll.outcome
        case StillPolling => JawRun(StillPolling, polled)
        case RequestFailed(_) => JawRun(Failure(Polling.PollError(poll.outcome)), polled)
        case JobFailed(_) => JawRun(Failure(Polling.PollError(poll.outcome)), polled)
        case Finished(_) =>
          var fetched := polled + [ResultRequest(replies.jobId)];
          if !HttpStatus.Accepted(replies.resultCode) then
            JawRun(Failure(HttpStatus.FailureMessage(HttpStatus.Result, replies.resultCode)), fetched)
          else
            JawRun(Success(replies.mesh, Labels.LabelList(replies.result, roundToInt),
                           AlignMatrix.Rows(replies.alignMatrix)), fetched)
  }

  /** Clears `label_` and pushes one label per element of the "Result" array. */
  method FillLabels<D>(out: JawOutputs, result: seq<Labels.JsonNumber<D>>, roundToInt: D -> int)
    modifies out`labels
    ensures out.labels == Labels.LabelList(result, roundToInt)
  {
    out.labels := [];
    for i := 0 to |result|
      invariant out.labels == Labels.LabelList(result[..i], roundToInt)
    {
      var v := result[i];
      out.labels := out.labels + [if v.IntNumber? then v.value else roundToInt(v.number)];
      assert result[..i + 1][..i] == result[..i];
    }
    assert result[..|result|] == result;
  }

  /** Clears `align_matrix_` and runs the scanner over the "AlignMatrix" text. */
  method ScanAlignMatrix(out: JawOutputs, alignMatStr: string)
    modifies out`alignMatrix
    ensures out.alignMatrix == AlignMatrix.Rows(alignMatStr)
  {
    out.alignMatrix := [];
    var tempStr := "";
    var tempVec: seq<string> := [];
    for i := 0 to |alignMatStr|
      invariant AlignMatrix.Scan(alignMatStr[..i]) == AlignMatrix.ScanState(tempStr, tempVec, out.alignMatrix)
    {
      var c := alignMatStr[i];
      assert alignMatStr[..i + 1][..i] == alignMatStr[..i];
      if c == '[' || c == ' ' {
        continue;
      }
      if c == ',' || c == ']' {
        if tempStr != "" {
          tempVec := tempVec + [tempStr];
          tempStr := "";
          if c == ']' {
            out.alignMatrix := out.alignMatrix + [tempVec];
            tempVec := [];
          }
        }
        continue;
      }
      tempStr := tempStr + [c];
    }
    assert alignMatStr[..|alignMatStr|] == alignMatStr;
  }

  /**
   * `segment_jaw`.  `ok` is what it returns, or None if the replies ran out while the job was
   * still pending.  On success the three result outputs are filled and the error message is
   * left alone; on failure only the error message is written.
   */
  method SegmentJaw<D>(out: JawOutputs, jawType: char, replies: ServiceReplies<D>, roundToInt: D -> int)
    returns (ok: Option<bool>, requests: seq<Request>)
    modifies out
    ensures var run := SegmentJawRun(jawType, replies, roundToInt);
      && requests == run.requests
      && (ok == Some(true) <==> run.outcome.Success?)
      && (ok == Some(false) <==> run.outcome.Failure?)
      && (run.outcome.Success? ==>
            && out.obj == run.outcome.obj
            && out.labels == run.outcome.labels
            && out.alignMatrix == run.outcome.matrix
            && out.errorMsg == old(out.errorMsg))
      && (run.outcome.Failure? ==>
            && out.errorMsg == run.outcome.errorMsg
            && out.obj == old(out.obj)
            && out.labels == old(out.labels)
            && out.alignMatrix == old(out.alignMatrix))
      && (run.outcome.StillPolling? ==> unchanged(out))
  {
    // Step 1: the zip file holding the mesh.
    if replies.archiveError.Some? {
      out.errorMsg := replies.archiveError.value;
      return Some(false), [];
    }

    // Step 2: create the job.
    requests := [CreateJob(Jaw.JawField(jawType), "true")];
    if replies.creationCode > HttpStatus.LastAcceptedCode {
      out.errorMsg := HttpStatus.FailureMessage(HttpStatus.Creation, replies.creationCode);
      return Some(false), requests;
    }

    // Step 3: poll the job.
    var outcome, polls := Polling.PollJob(replies.polls);
    requests := requests + StatusRequests(replies.jobId, polls);
    if outcome.StillPolling? {
      return None, requests;
    }
    if outcome.RequestFailed? || outcome.JobFailed? {
      out.errorMsg := Polling.PollError(outcome);
      return Some(false), requests;
    }

    // Step 4: fetch the result.
    requests := requests + [ResultRequest(replies.jobId)];
    if replies.resultCode > HttpStatus.LastAcceptedCode {
      out.errorMsg := HttpStatus.FailureMessage(HttpStatus.Result, replies.resultCode);
      return Some(false), requests;
    }

    // Step 5: fill the outputs.
    out.obj := replies.mesh;
    FillLabels(out, replies.result, roundToInt);
    ScanAlignMatrix(out, replies.alignMatrix);
    ok := Some(true);
  }
}
