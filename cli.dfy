/**
 * The decisions `main` takes before it calls `segment_jaw`: at least two arguments (the STL
 * path and the result directory), and a file name whose first character names the jaw.
 */
module Cli {
  import opened Wrappers
  import Jaw

  datatype Invocation =
    | Usage                                                   // fewer than two arguments
    | BadFileName                                             // first character not l/L/u/U
    | Segment(stlPath: string, resultDir: string, jawType: char)

  /** `args` is argv, program name included. */
  function ParseArguments(args: seq<string>): (inv: Invocation)
    ensures inv.Usage? <==> |args| < 3
    ensures inv.Segment? ==>
      && inv.stlPath == args[1] && inv.resultDir == args[2]
      && inv.jawType in {'L', 'U'}
      && var name := Jaw.FileName(args[1]);
         |name| > 0 && Jaw.AsciiUpper(name[0]) == inv.jawType
    ensures inv.BadFileName? ==>
      var name := Jaw.FileName(args[1]);
      |name| == 0 || name[0] !in {'L', 'l', 'U', 'u'}
  {
    if |args| < 3 then Usage
    else match Jaw.JawFromFileName(Jaw.FileName(args[1]))
      case None => BadFileName
      case Some(jaw) => Segment(args[1], args[2], jaw)
  }
}
