/** The configuration module `turretManagerConfig.py`: the settings that
    `turret-manager.py` loads, and the command tables it ships (which that
    program does not itself consult). */
module ManagerConfig {
  import opened Protocol

  /** The shipped `TURRET_CONFIG` (only the fields the protocol reads). */
  const TurretConfig := Settings(noTurret := true, validationBypass := true, password := "Z")

  /** `SERIAL_CMD`: canonical command name to turret code; no shutdown entry. */
  const SerialCmd: map<string, int> := map[
    "FIRE" := 0x21,
    "STOP_FIRE" := 0x22,
    "SAFETY_ON" := 0x23,
    "SAFETY_OFF" := 0x24,
    "REBOOT" := 0x25,
    "ROTATE_LEFT_MAX" := 0x26,
    "ROTATE_ZERO" := 0x30,
    "ROTATE_RIGHT_MAX" := 0x3A,
    "PITCH_DOWN_MAX" := 0x3B,
    "PITCH_ZERO" := 0x45,
    "PITCH_UP_MAX" := 0x4F
  ]

  /** `IN_CMD`: phrase to canonical command name; no "STOP SERVER". */
  const InCmd: map<string, string> := map[
    "FIRE" := "FIRE",
    "CEASE FIRE" := "STOP_FIRE",
    "SAFETY ON" := "SAFETY_ON",
    "SAFETY OFF" := "SAFETY_OFF",
    "ROTATE SPEED" := "ROTATE_ZERO",
    "PITCH SPEED" := "PITCH_ZERO"
  ]

  /** Every phrase names a command the code table knows. */
  lemma InCmdTargetsExist()
    ensures forall p :: p in InCmd ==> InCmd[p] in SerialCmd
  {
  }

  /** Canonical names are single words. */
  lemma CanonicalNames()
    ensures forall k :: k in SerialCmd ==> ' ' !in k
  {
  }

  /** This table has no shutdown sentinel: no code is 0 and there is neither
      a "STOP SERVER" phrase nor a STOP_SERVER name. */
  lemma NoShutdownEntry()
    ensures forall k :: k in SerialCmd ==> SerialCmd[k] != 0
    ensures "STOP SERVER" !in InCmd && "STOP_SERVER" !in SerialCmd
  {
  }

  /** The speed limits lie ten steps either side of the zero-speed codes. */
  lemma LimitsAroundZero()
    ensures SerialCmd["ROTATE_ZERO"] + 10 == SerialCmd["ROTATE_RIGHT_MAX"]
    ensures SerialCmd["ROTATE_ZERO"] - 10 == SerialCmd["ROTATE_LEFT_MAX"]
    ensures SerialCmd["PITCH_ZERO"] + 10 == SerialCmd["PITCH_UP_MAX"]
    ensures SerialCmd["PITCH_ZERO"] - 10 == SerialCmd["PITCH_DOWN_MAX"]
  {
  }
}
