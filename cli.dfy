/** Outcomes of the command-line scripts: a value, or the Python exception /
    process exit that the scripts raise instead of returning. */
module Cli {

  datatype Option<+T> = None | Some(value: T)

  /** The ways a script stops early.
      - ValueError: Python's int() refused the literal it was given.
      - ArgumentTypeError: a validator rejected an argument, with its message.
      - SystemExit: the process exited with this status; the message is the one
        handed to sys.exit, or printed just before a bare sys.exit(status). */
  datatype Failure =
    | ValueError(literal: string)
    | ArgumentTypeError(message: string)
    | SystemExit(status: int, message: string)

  datatype Result<+T> = Ok(value: T) | Err(error: Failure)
}
