/** The configuration module `config.py` that `turret.py` loads: the
    shipped settings and the two command tables. */
module Config {
  import opened Protocol

  /** The shipped `TURRET_CONFIG` (only the fields the protocol reads). */
  const TurretConfig := Settings(noTurret := true, validationBypass := true, password := "Z")

  /** `SERIAL_CMD`: canonical command name to the code sent to the turret. */
  const SerialCmd: map<string, int> := map[
    "FIRE" := 0x21,
    "STOP_FIRE" := 0x22,
    "SAFETY_ON" := 0x23,
    "SAFETY_OFF" := 0x24,
    "REBOOT" := 0x25,
    "ROTATE_LEFT_MAX" := 0x26,
    "ROTATE_ZERO" := 0x30,
    "ROTATE_RIGHT_MAX" := 0x3A,
    "PITCH_DOWN_MAX" := 0x3B,
    "PITCH_ZERO" := 0x45,
    "PITCH_UP_MAX" := 0x4F,
    "STOP_SERVER" := 0
  ]

  /** `IN_CMD`: phrase a client sends to canonical command name. */
  const InCmd: map<string, string> := map[
    "FIRE" := "FIRE",
    "CEASE FIRE" := "STOP_FIRE",
    "SAFETY ON" := "SAFETY_ON",
    "SAFETY OFF" := "SAFETY_OFF",
    "ROTATE SPEED" := "ROTATE_ZERO",
    "PITCH SPEED" := "PITCH_ZERO",
    "STOP SERVER" := "STOP_SERVER"
  ]

  /** The canonical names no phrase leads to. */
  const Unphrased: set<string> :=
    {"REBOOT", "ROTATE_LEFT_MAX", "ROTATE_RIGHT_MAX", "PITCH_DOWN_MAX", "PITCH_UP_MAX"}

  /** Every phrase names a command the code table knows. */
  lemma InCmdTargetsExist()
    ensures forall p :: p in InCmd ==> InCmd[p] in SerialCmd
  {
  }

  /** The phrases of `IN_CMD`, listed. */
  lemma PhraseList()
    ensures InCmd.Keys ==
      {"FIRE", "CEASE FIRE", "SAFETY ON", "SAFETY OFF", "ROTATE SPEED", "PITCH SPEED", "STOP SERVER"}
  {
  }

  /** Canonical names are single words. */
  lemma CanonicalNames()
    ensures forall k :: k in SerialCmd ==> ' ' !in k
  {
  }

  /** "FIRE" is the only canonical name that is also a phrase. */
  lemma SharedName()
    ensures forall k :: k in SerialCmd && k in InCmd ==> k == "FIRE"
    ensures "FIRE" in SerialCmd && "FIRE" in InCmd
  {
  }

  /** "STOP SERVER" leads to STOP_SERVER, whose code 0 no other command shares. */
  lemma StopServerIsOnlyZero()
    ensures "STOP SERVER" in InCmd && InCmd["STOP SERVER"] == "STOP_SERVER"
    ensures SerialCmd["STOP_SERVER"] == 0
    ensures forall k :: k in SerialCmd && SerialCmd[k] == 0 ==> k == "STOP_SERVER"
  {
  }

  /** Every other code is a printable byte in 0x21..0x4F. */
  lemma CodesInRange()
    ensures forall k :: k in SerialCmd && k != "STOP_SERVER" ==> 0x21 <= SerialCmd[k] <= 0x4F
  {
  }

  /** No two commands share a code. */
  lemma CodesDistinct()
    ensures forall a, b :: a in SerialCmd && b in SerialCmd && a != b ==> SerialCmd[a] != SerialCmd[b]
  {
  }

  /** The speed limits lie ten steps either side of the zero-speed codes. */
  lemma LimitsAroundZero()
    ensures SerialCmd["ROTATE_ZERO"] + 10 == SerialCmd["ROTATE_RIGHT_MAX"]
    ensures SerialCmd["ROTATE_ZERO"] - 10 == SerialCmd["ROTATE_LEFT_MAX"]
    ensures SerialCmd["PITCH_ZERO"] + 10 == SerialCmd["PITCH_UP_MAX"]
    ensures SerialCmd["PITCH_ZERO"] - 10 == SerialCmd["PITCH_DOWN_MAX"]
  {
  }

  /** A canonical name is the target of some phrase exactly when it is not
      REBOOT or one of the four speed limits. */
  lemma PhrasedTargets(k: string)
    requires k in SerialCmd
    ensures (exists p :: p in InCmd && InCmd[p] == k) <==> k !in Unphrased
  {
    if k !in Unphrased {
      var p :=
        if k == "STOP_FIRE" then "CEASE FIRE"
        else if k == "SAFETY_ON" then "SAFETY ON"
        else if k == "SAFETY_OFF" then "SAFETY OFF"
        else if k == "ROTATE_ZERO" then "ROTATE SPEED"
        else if k == "PITCH_ZERO" then "PITCH SPEED"
        else if k == "STOP_SERVER" then "STOP SERVER"
        else "FIRE";
      assert p in InCmd && InCmd[p] == k;
    }
  }
}
