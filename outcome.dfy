/** How a call into the agent endpoint ends, shared by the command, file and HTTP
    paths: with a value, or with one of the exceptions those paths let escape. */
module Outcomes {
  import opened PyText
  import opened Exceptions

  /** An exception leaving an agent operation. */
  datatype AgentError =
      /** RemoteCommandError, for a failed command the caller wanted to fail on. */
    | CommandFailed(error: RemoteCommandError)
      /** AttributeError, with its message. */
    | AttributeError(text: Bytes)
      /** IOError from `open()` on the named path. */
    | IOError(path: Bytes)
      /** RuntimeError, with its message: the HTTP path's re-wrapping. */
    | RuntimeError(text: Bytes)
      /** An exception outside the `Exception` hierarchy, passed on as it was raised. */
    | Uncaught(typeName: Bytes, text: Bytes)

  /** How a Python call ends: with a value, or with an exception propagating. */
  datatype Outcome<+T> = Returned(value: T) | Raised(error: AgentError)
}
