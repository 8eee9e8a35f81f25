# Jaw segmentation client: a Dafny model

`seg.cpp` is a command-line client for a remote dental-jaw segmentation service. `main` picks
the jaw (lower or upper) from the first letter of the STL file's name. `segment_jaw` then zips
the mesh and creates a job. It polls the job's status every 30 seconds until the job leaves
"Pending"/"InProgress", fetches the result, and fills the caller's outputs: the processed mesh,
one label per mesh element, and an align matrix. The matrix comes from a text like
`[[1,2],[3,4]]`, read by a hand-written scanner. `main` writes the labels to a text file, each
followed by a space.

The model covers this logic and its promises:

- `Jaw`: choosing the jaw from the file name, and the "Lower"/"Upper" form field.
- `HttpStatus`: the `> 300` status-code rule used at job creation, status polling and result
  fetch, and its error messages.
- `Decimal`: `std::to_string` of the codes and labels, with a parser as its partner.
- `Polling`: the poll loop (an imperative method proved against a recursive definition),
  reply classification, and the index of the reply that ends the loop.
- `AlignMatrix`: the scanner as a step function over its three accumulators (`temp_str`,
  `temp_vec`, `align_matrix_`). It is related to an independent split-at-separators reading of
  the text, whose pieces, each with the ',' or ']' that ends it, group into exactly the rows
  the scanner emits. `AlignMatrixExamples` states it for texts of known shape and arbitrary
  tokens.
- `Labels`: the label vector and the label-file text, with a reader as its round-trip partner.
- `Segmentation`: `segment_jaw` as a method that modifies an object holding the caller's four
  output references. It is proved against `SegmentJawRun`, a function giving the outcome and the
  requests sent. `SegmentationProperties` states what a run guarantees.
- `Cli`: the argument checks of `main`.

The network, the zip library and the JSON parser are not called. What they answer is an input
(`ServiceReplies`: the archive outcome, each reply's status code, and the fields the code reads).
The requests a run would send are an output (`Request`).

The scanner does not close a row at every `]`. A `]` closes the current row only when it ends
a non-empty token; a `]` right after a ',' or another `]` does nothing. So `[[1,],[2]]` gives
the single row `[1, 2]` (`AlignMatrixExamples.EmptyTokenKeepsRowOpen`), and the model follows
this behaviour of the code.

## Model

| member | source | states |
|---|---|---|
| `Decimal.NatString` | seg.cpp:78 | the decimal text of a natural number is non-empty, all digits, has no leading zero, and starts with '0' only for 0 |
| `Decimal.IntString` | seg.cpp:95 | `to_string` of a code: a leading '-' exactly for negative values, digits otherwise |
| `Decimal.IntStringRoundTrip` | seg.cpp:114 | reading the decimal text of any integer back gives that integer |
| `Decimal.IntStringHasNoSpace` | seg.cpp:189 | the decimal text of a label holds no space, so the space written after it delimits it |
| `HttpStatus.FailureMessageNamesCode` | seg.cpp:77 | the message of a rejected reply starts with "job <request> request failed with error code: " and its tail reads back as the code, so different codes give different messages |
| `Jaw.FileName` | seg.cpp:157 | the file name is the longest suffix of the path without '/': empty when the path ends in '/' |
| `Jaw.JawFromFileName` | seg.cpp:159-166 | a name is accepted exactly when its first character upper-cases to 'L' or 'U', and the code is that upper-cased character; the empty name is refused |
| `Jaw.JawField` | seg.cpp:68 | the "Jaw" form field is always "Lower" or "Upper" |
| `Jaw.JawFieldRoundTrip` | seg.cpp:68 | "Lower" is sent exactly for 'L'; every other character is sent as "Upper"; 'L' and 'U' are recovered from their field |
| `Jaw.FileNameSelectsField` | seg.cpp:157-166 | a file name starting with l/L is sent as "Lower", one starting with u/U as "Upper", and any other name is refused |
| `AlignMatrix.Segments` | seg.cpp:132-146 | the split of the matrix text at ',' and ']' has one more piece than there are separators, no piece holds '[', ' ', ',' or ']', and the pieces together hold every other character in order |
| `AlignMatrix.ScanMatchesSegments` | seg.cpp:132-146 | after any prefix, the pending token is the piece after the last separator, and the emitted rows followed by the open row are the non-empty terminated tokens in input order; so the emitted rows, concatenated, are a prefix of those tokens and the rest is dropped |
| `AlignMatrix.ScanGroupsPieces` | seg.cpp:132-146 | for every text, the emitted rows are the grouping of the terminated pieces in which each non-empty piece ended by ']' closes a row, empty pieces are dropped, and the scanner's open row is the grouping's open row |
| `AlignMatrix.OpenRowFollowsLastClose` | seg.cpp:136-142 | the open row holds the non-empty pieces after the last non-empty piece ended by ']' |
| `AlignMatrix.RowPerClosingPiece` | seg.cpp:138-141 | there are exactly as many rows as non-empty pieces ended by ']' |
| `AlignMatrix.RowsAreNonEmpty` | seg.cpp:134-142 | every emitted row is non-empty |
| `AlignMatrix.TokensKeepEveryOtherChar` | seg.cpp:133-145 | no value contains '[', ' ', ',' or ']'; every other character (tabs and letters included) enters a token |
| `AlignMatrix.ScanIgnoresBracketsAndSpaces` | seg.cpp:133 | scanning a text equals scanning it with every '[' and ' ' removed, so spaced and unspaced literals give the same rows |
| `AlignMatrixExamples.TwoRowsOfTwo` | seg.cpp:128-146 | "[[a,b],[c,d]]" gives the rows [a, b] and [c, d] for any tokens |
| `AlignMatrixExamples.EmptyLiteral` | seg.cpp:128-146 | "[]" gives no rows |
| `AlignMatrixExamples.EmptyTokenKeepsRowOpen` | seg.cpp:134-143 | "[[a,],[b]]" gives the single row [a, b]: a ']' after an empty token emits nothing |
| `AlignMatrixExamples.TrailingTokenIsDropped` | seg.cpp:145 | characters after the last separator stay in the pending token and never change the rows |
| `Labels.LabelList` | seg.cpp:125-126 | the label vector has one entry per "Result" element, in order; integer elements are copied unchanged |
| `Labels.LabelTextRoundTrip` | seg.cpp:189 | reading the label file back gives the written labels, in order |
| `Labels.LabelTextSpaces` | seg.cpp:189 | the label file is one space per label plus the labels' decimal texts, and ends with a space when non-empty |
| `Polling.Classify` | seg.cpp:94-106 | a reply above 300 aborts whatever its status; otherwise "Pending"/"InProgress" continues, "Failed" fails with the reply's message, and any other status finishes |
| `Polling.Poll` | seg.cpp:88-107 | the loop makes at least one request when a reply is available, never more than the replies given, and, if still polling, has used them all |
| `Polling.PollStopsAtFirstDecision` | seg.cpp:90-106 | if reply k is the first that is not an accepted wait, the loop ends with that reply's outcome after k + 1 polls |
| `Polling.PollWaitsThroughout` | seg.cpp:90 | if every reply is an accepted wait, the loop is still polling after using all of them |
| `Polling.PollDecidedByLastReply` | seg.cpp:90-106 | whatever the loop reports was decided by its last answered reply, and every earlier reply was an accepted wait |
| `Polling.PollJob` | seg.cpp:87-107 | the `while` loop with `status` starting at "Pending" computes exactly `Poll`: same outcome, same number of polls |
| `Segmentation.FillLabels` | seg.cpp:125-126 | clearing and refilling `label_` leaves exactly `LabelList` of the result, and changes no other output |
| `Segmentation.ScanAlignMatrix` | seg.cpp:128-146 | clearing `align_matrix_` and running the scanning loop leaves exactly `Rows` of the text, whatever it held before |
| `Segmentation.SegmentJaw` | seg.cpp:19-149 | `segment_jaw` sends the requests of `SegmentJawRun` and returns true exactly on its success; success fills mesh, labels and matrix and keeps the error message; failure writes only the error message; a run still polling changes nothing |
| `Segmentation.JawOutputs.constructor` | seg.cpp:168-170 | the caller's outputs start empty |
| `SegmentationProperties.SuccessOnlyAfterCompletion` | seg.cpp:77-126 | success implies no archive error was reported, creation and result were accepted, the loop ended on a non-wait, non-"Failed" status after accepted waits, the requests were creation, k >= 1 status requests and the result request, and there is one label per element |
| `SegmentationProperties.AcceptedRepliesSucceed` | seg.cpp:77-116 | codes up to and including 300 at every step, with waits followed by a finishing status at reply k, give success after k + 1 status requests |
| `SegmentationProperties.FailureNamesItsCause` | seg.cpp:45-116 | a failure's message is that of the first step that failed, in the run's order: the archive error if any; else the creation message if its code is above 300; else, if the loop ended on a failure, the status message with the last reply's code when above 300 and otherwise "job failed with error: " with its message (its status being "Failed"); else the result message, its code being above 300 |
| `SegmentationProperties.CreationRequestNamesJaw` | seg.cpp:66-72 | the first request is the job creation, with "Lower" exactly for 'L', "Upper" otherwise, and "Preprocess" set to "true" |
| `SegmentationProperties.EndToEnd` | seg.cpp:87-146 | job "abc123" with "InProgress" then "Completed", labels [1, 1, 2] and matrix "[[1,0],[0,1]]" succeeds with those labels and rows [1, 0], [0, 1] after exactly two status requests |
| `Cli.ParseArguments` | seg.cpp:152-166 | fewer than two arguments gives the usage error; otherwise the jaw code is the upper-cased first character of the file name when it is 'L' or 'U', and any other name is refused |

## Left out

- Creating the temporary zip file with `tmpnam` and libzip, and removing it (seg.cpp:37-63, 75). These are file-system I/O and a foreign library. The archive step's result is an input (`archiveError`), and the text of libzip's error messages is not modelled.
- The result of the final `zip_close` (seg.cpp:63) is not checked by the code, so a failure to write the archive there goes unnoticed and the job is created anyway. The model has no separate input for it: `archiveError` covers only the errors the code reports (seg.cpp:41-60).
- The HTTP calls through `cpr`, the server URL and the credentials (seg.cpp:66-72, 92-93, 110-111). Replies are inputs; requests are recorded as `Request` values. The zipped mesh attached to the creation request is not represented.
- JSON parsing with rapidjson (seg.cpp:82-84, 99-102, 120-123, 131). The fields are given already extracted. The undefined behaviour of a missing or mistyped field is not modelled.
- The 30-second `sleep_for` in the poll loop (seg.cpp:91). It is timing only.
- `Polling.Poll`: the replies are a finite sequence. When they run out while the job is still pending, the model reports `StillPolling`, where the program would go on polling for ever.
- `stod` on matrix tokens (seg.cpp:136). Entries are kept as token text, because floating-point conversion is out of scope. The exception `stod` throws on a non-numeric token is not modelled.
- `Labels.LabelList`: the `(int)(GetDouble() + 0.1)` conversion of non-integer labels is an abstract function parameter, because it is floating-point arithmetic. The 32-bit range in which rapidjson reports a number as an integer is not modelled.
- `Decimal.IntString`: status codes and labels are unbounded integers; the width of `long` and `int` is not modelled.
- `Jaw.FileName`: handles '/'-separated paths only, with no root names or other platform rules of `std::filesystem`.
- Creating the result directory, writing the mesh, label and matrix files, and printing messages in `main` (seg.cpp:153, 164, 173, 177-198). The label file's text is modelled (`Labels.LabelText`); the matrix file needs double formatting and is left out.
- The thread-safety claim (seg.cpp:18). Concurrency is not modelled.
