/**
 * The segmentation labels.  `segment_jaw` clears `label_` and pushes one entry per element of
 * the result's "Result" array, in order: an integer element is copied as it is, any other number
 * goes through a rounding conversion.  `main` writes the labels to the label file as each label's
 * decimal text followed by one space.
 *
 * The rounding conversion works on floating-point values and is not modelled: a non-integer
 * element carries a value of an arbitrary type `D` and the conversion is a parameter.
 */
module Labels {
  import Decimal

  /** An element of the "Result" array: an integer, or some other number. */
  datatype JsonNumber<D> = IntNumber(value: int) | OtherNumber(number: D)

  /** The label one element contributes. */
  function LabelOf<D>(v: JsonNumber<D>, roundToInt: D -> int): int {
    match v
    case IntNumber(i) => i
    case OtherNumber(d) => roundToInt(d)
  }

  /** `label_` after the loop over `result` has pushed one label per element. */
  function LabelList<D>(result: seq<JsonNumber<D>>, roundToInt: D -> int): (labels: seq<int>)
    ensures |labels| == |result|
    ensures forall i :: 0 <= i < |result| ==> labels[i] == LabelOf(result[i], roundToInt)
    ensures forall i :: 0 <= i < |result| && result[i].IntNumber? ==> labels[i] == result[i].value
    decreases |result|
  {
    if result == [] then []
    else LabelList(result[..|result| - 1], roundToInt) + [LabelOf(result[|result| - 1], roundToInt)]
  }

  /** The label file: each label in decimal followed by a space. */
  function LabelText(labels: seq<int>): string
    decreases |labels|
  {
    if labels == [] then "" else Decimal.IntString(labels[0]) + " " + LabelText(labels[1..])
  }

  /** Position of the first space in `s`, or `|s|` if there is none. */
  function FirstSpace(s: string): (k: nat)
    ensures k <= |s|
    ensures forall i :: 0 <= i < k ==> s[i] != ' '
    ensures k < |s| ==> s[k] == ' '
    decreases |s|
  {
    if s == [] || s[0] == ' ' then 0 else 1 + FirstSpace(s[1..])
  }

  /** Reads a label file back: space-terminated decimal numbers. */
  function ParseLabelText(text: string): seq<int>
    decreases |text|
  {
    if text == [] then []
    else
      var k := FirstSpace(text);
      [Decimal.ParseInt(text[..k])] + (if k < |text| then ParseLabelText(text[k + 1..]) else [])
  }

  /** Reading the label file back gives the labels that were written, in order. */
  lemma {:induction false} LabelTextRoundTrip(labels: seq<int>)
    ensures ParseLabelText(LabelText(labels)) == labels
    decreases |labels|
  {
    if labels != [] {
      var head := Decimal.IntString(labels[0]);
      var rest := LabelText(labels[1..]);
      var text := head + " " + rest;
      assert LabelText(labels) == text;
      Decimal.IntStringHasNoSpace(labels[0]);
      FirstSpaceAfter(head, rest);
      assert text[..|head|] == head;
      assert text[|head| + 1..] == rest;
      Decimal.IntStringRoundTrip(labels[0]);
      LabelTextRoundTrip(labels[1..]);
    }
  }

  lemma FirstSpaceAfter(head: string, rest: string)
    requires forall i :: 0 <= i < |head| ==> head[i] != ' '
    ensures FirstSpace(head + " " + rest) == |head|
  {
    var s := head + " " + rest;
    assert s[|head|] == ' ';
    assert forall i :: 0 <= i < |head| ==> s[i] == head[i];
  }

  /** The file has exactly one space per label, each label's text directly before it. */
  lemma {:induction false} LabelTextSpaces(labels: seq<int>)
    ensures |LabelText(labels)| == |labels| + SumOfLengths(labels)
    ensures labels != [] ==> LabelText(labels)[|LabelText(labels)| - 1] == ' '
    decreases |labels|
  {
    if labels != [] {
      LabelTextSpaces(labels[1..]);
    }
  }

  function SumOfLengths(labels: seq<int>): nat
    decreases |labels|
  {
    if labels == [] then 0 else |Decimal.IntString(labels[0])| + SumOfLengths(labels[1..])
  }
}
