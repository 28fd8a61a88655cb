/** What both relay variants share: the outcome of interpreting one command
    string, and the configuration fields the command protocol reads. */
module Protocol {

  /** The Python exceptions a command string can raise before anything
      reaches the turret. */
  datatype Failure = ValueError | IndexError

  /** What one command string turns into: the value handed to
      `command_turret`, nothing at all (an unrecognized command, only
      logged), or an exception. */
  datatype Resolved = Dispatch(value: int) | Unrecognized | Raised(error: Failure)

  /** The fields of `TURRET_CONFIG` the protocol reads: whether the serial
      port is left unused, whether connections start out validated, and the
      password a client must send first. */
  datatype Settings = Settings(noTurret: bool, validationBypass: bool, password: string)
}
