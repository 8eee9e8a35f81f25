/**
 * Which jaw a mesh belongs to.  `main` takes the first character of the STL file's name:
 * 'L' or 'l' selects the lower jaw, 'U' or 'u' the upper jaw, anything else is refused.
 * `segment_jaw` then sends the form field "Lower" for 'L' and "Upper" for every other character.
 */
module Jaw {
  import opened Wrappers

  /** ASCII upper-casing, the reference for the case-insensitive test on the first character. */
  function AsciiUpper(c: char): char {
    if 'a' <= c <= 'z' then (c as int - 32) as char else c
  }

  /**
   * The last component of a path, as `std::filesystem::path::filename` gives it for a POSIX
   * path: everything after the last '/', and the empty name when the path ends with '/'.
   */
  function FileName(path: string): (name: string)
    ensures |name| <= |path| && path[|path| - |name|..] == name
    ensures forall i :: 0 <= i < |name| ==> name[i] != '/'
    ensures |name| < |path| ==> path[|path| - |name| - 1] == '/'
    decreases |path|
  {
    if path == [] || path[|path| - 1] == '/' then []
    else FileName(path[..|path| - 1]) + [path[|path| - 1]]
  }

  /**
   * The jaw code chosen from a file name.  The empty name is refused too: its first character
   * is the string's terminating NUL.
   */
  function JawFromFileName(name: string): (jaw: Option<char>)
    ensures jaw.Some? <==> |name| > 0 && AsciiUpper(name[0]) in {'L', 'U'}
    ensures jaw.Some? ==> jaw.value == AsciiUpper(name[0])
  {
    if |name| == 0 then None
    else if name[0] == 'L' || name[0] == 'l' then Some('L')
    else if name[0] == 'U' || name[0] == 'u' then Some('U')
    else None
  }

  /** The "Jaw" form field of the job-creation request. */
  function JawField(jawType: char): (field: string)
    ensures field == "Lower" || field == "Upper"
  {
    if jawType == 'L' then "Lower" else "Upper"
  }

  /** The jaw code a form field stands for, the inverse of `JawField` on the codes `main` accepts. */
  function JawCode(field: string): Option<char> {
    if field == "Lower" then Some('L') else if field == "Upper" then Some('U') else None
  }

  /** `JawField` loses nothing for the two accepted codes, and sends "Upper" for any other character. */
  lemma JawFieldRoundTrip(jawType: char)
    ensures jawType in {'L', 'U'} ==> JawCode(JawField(jawType)) == Some(jawType)
    ensures JawField(jawType) == "Lower" <==> jawType == 'L'
  {
  }

  /**
   * From file name to form field: a name whose first character is 'l' or 'L' is sent as "Lower",
   * one starting with 'u' or 'U' as "Upper", and every other name is refused before any request.
   */
  lemma FileNameSelectsField(path: string)
    ensures var name := FileName(path);
      match JawFromFileName(name)
      case Some(jaw) =>
        (JawField(jaw) == "Lower" <==> name[0] == 'L' || name[0] == 'l') &&
        (JawField(jaw) == "Upper" <==> name[0] == 'U' || name[0] == 'u')
      case None =>
        |name| == 0 || name[0] !in {'L', 'l', 'U', 'u'}
  {
  }
}
