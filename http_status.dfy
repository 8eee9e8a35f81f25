/**
 * The status-code rule that guards every request of `segment_jaw`: a reply whose code is
 * greater than 300 ends the run with an error message naming the request and the code; any
 * code up to and including 300 is accepted.  The same rule is applied to job creation, to each
 * status poll and to the result fetch.
 */
module HttpStatus {
  import Decimal

  /** The largest status code that is not treated as a failure. */
  const LastAcceptedCode: int := 300

  predicate Accepted(code: int) {
    code <= LastAcceptedCode
  }

  /** The three requests whose status code is checked. */
  datatype Request = Creation | Status | Result

  function RequestName(request: Request): string {
    match request
    case Creation => "creation"
    case Status => "status"
    case Result => "result"
  }

  function FailurePrefix(request: Request): string {
    "job " + RequestName(request) + " request failed with error code: "
  }

  function FailureMessage(request: Request, code: int): string {
    FailurePrefix(request) + Decimal.IntString(code)
  }

  /**
   * The message that a rejected reply ends the run with starts with the request's prefix and
   * ends with the code in decimal, which reads back as the code: different codes for the same
   * request give different messages.
   */
  lemma FailureMessageNamesCode(request: Request, code: int)
    ensures var msg := FailureMessage(request, code);
      var prefix := FailurePrefix(request);
      |prefix| < |msg| && msg[..|prefix|] == prefix && Decimal.ParseInt(msg[|prefix|..]) == code
  {
    var msg := FailureMessage(request, code);
    assert msg[|FailurePrefix(request)|..] == Decimal.IntString(code);
    Decimal.IntStringRoundTrip(code);
  }
}
