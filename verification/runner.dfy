/**
  The command runner. Running a shell command is I/O, so a command's
  completion (its exit status and captured streams, or the timeout) is an
  input; this module fixes how that completion becomes the
  `(succeeded, stdout, stderr)` triple the installers see.
 */
module Runner {

  /** Seconds a command may run before it is abandoned (the clock is not modelled). */
  const InstallTimeout: nat := 300

  /** The marker put in place of the captured error stream when a command times out. */
  const TimeoutMarker: string := "Timeout"

  /** How a child process ended. */
  datatype Completion =
    | Exited(code: int, stdout: string, stderr: string)
    | TimedOut

  /** What the runner reports back to its caller. */
  datatype Outcome = Outcome(succeeded: bool, stdout: string, stderr: string)

  /**
    A command succeeds exactly when it exited with status 0; a timeout is a
    failure with no output and the timeout marker as its error text.
   */
  function RunCommand(c: Completion): (r: Outcome)
    ensures r.succeeded <==> c.Exited? && c.code == 0
    ensures c.Exited? ==> r.stdout == c.stdout && r.stderr == c.stderr
    ensures c.TimedOut? ==> r == Outcome(false, "", TimeoutMarker)
  {
    match c
    case Exited(code, out, err) => Outcome(code == 0, out, err)
    case TimedOut => Outcome(false, "", TimeoutMarker)
  }
}
