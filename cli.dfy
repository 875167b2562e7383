/** `cli.rs`: the command-line arguments of an app under test and the run mode
    they select. */
module Cli {
  import opened Wrappers

  /** `Arguments { capture: Option<u64>, replay: bool }`; `capture` holds the
      screenshot rate in milliseconds. */
  datatype Arguments = Arguments(capture: Option<nat>, replay: bool)

  /** clap's `conflicts_with = "capture"`: a parsed command line never sets both. */
  predicate Parsed(args: Arguments) {
    !(args.capture.Some? && args.replay)
  }

  /** `Arguments::mode`: `capture` takes precedence over `replay`, and with
      neither the app runs uninstrumented. */
  function Mode(args: Arguments): (m: string)
    ensures m == "capture" || m == "replay" || m == "sandbox"
  {
    if args.capture.Some? then "capture"
    else if args.replay then "replay"
    else "sandbox"
  }

  /** A capture rate selects capture mode whatever the replay flag says. */
  lemma ModeCaptureWins(args: Arguments)
    requires args.capture.Some?
    ensures Mode(args) == "capture"
  {
  }

  /** Without a capture rate, the replay flag alone decides between replay and
      sandbox. */
  lemma ModeWithoutCapture(args: Arguments)
    requires args.capture.None?
    ensures Mode(args) == (if args.replay then "replay" else "sandbox")
  {
  }

  /** For a command line clap accepted, each mode corresponds to exactly one
      combination of flags. */
  lemma ModeOfParsed(args: Arguments)
    requires Parsed(args)
    ensures Mode(args) == "capture" <==> args.capture.Some?
    ensures Mode(args) == "replay" <==> args.replay
    ensures Mode(args) == "sandbox" <==> args.capture.None? && !args.replay
  {
  }
}
