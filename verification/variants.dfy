/** How the two relays compare: where the table-driven `turret.py` and the
    hard-coded `turret-manager.py` turn the same command string into the
    same value, and where they part ways. */
module Variants {
  import opened PyStr
  import opened Protocol
  import Config
  import ManagerConfig
  import Turret
  import TurretManager

  /** The shipped tables differ only by the shutdown entry: the manager's
      are those of `config.py` without "STOP SERVER" and STOP_SERVER. */
  lemma TablesDifferOnlyByShutdown()
    ensures Config.InCmd.Keys == ManagerConfig.InCmd.Keys + {"STOP SERVER"}
    ensures Config.SerialCmd.Keys == ManagerConfig.SerialCmd.Keys + {"STOP_SERVER"}
    ensures forall p :: p in ManagerConfig.InCmd ==> Config.InCmd[p] == ManagerConfig.InCmd[p]
    ensures forall k :: k in ManagerConfig.SerialCmd ==> Config.SerialCmd[k] == ManagerConfig.SerialCmd[k]
  {
  }

  /** The four exact phrases mean the same in both relays. */
  lemma AgreeOnExactPhrases(p: string)
    requires p in ManagerConfig.InCmd && p != TurretManager.InCmdRotate && p != TurretManager.InCmdPitch
    ensures Turret.Resolve(p) == TurretManager.Resolve(p)
  {
    TablesDifferOnlyByShutdown();
    Turret.PhraseResolves(p);
    TurretManager.ExactPhrasesMatchTable(p);
  }

  /** The speed phrases are phrases of `config.py` with the zero codes. */
  lemma SpeedPhraseCodes(p: string)
    requires p == TurretManager.InCmdRotate || p == TurretManager.InCmdPitch
    ensures p in Config.InCmd && p != "FIRE"
    ensures Config.SerialCmd[Config.InCmd[p]] == if p == TurretManager.InCmdRotate then 0x30 else 0x45
  {
  }

  /** A speed phrase followed by `str(n)` gives the same value in both; but
      where that value is 0 (n = -48 after "ROTATE SPEED", n = -69 after
      "PITCH SPEED"), `turret.py` shuts down while the manager writes 0. */
  lemma AgreeOnSpeedCommands(p: string, n: int)
    requires p == TurretManager.InCmdRotate || p == TurretManager.InCmdPitch
    ensures Turret.Resolve(p + " " + Decimal(n)) == TurretManager.Resolve(p + " " + Decimal(n))
    ensures Turret.Resolve(p + " " + Decimal(n)) == Dispatch(0)
      <==> n == -(if p == TurretManager.InCmdRotate then 0x30 else 0x45)
  {
    SpeedPhraseCodes(p);
    Turret.SpeedPhraseDecimal(p, n);
    TurretManager.SpeedDecimal(p, n);
  }

  /** A canonical name other than "FIRE" is a command to `turret.py` and is
      ignored by the manager. */
  lemma DifferOnCanonicalNames(k: string)
    requires k in ManagerConfig.SerialCmd && k != "FIRE"
    ensures Turret.Resolve(k) == Dispatch(ManagerConfig.SerialCmd[k])
    ensures TurretManager.Resolve(k) == Unrecognized
  {
    TablesDifferOnlyByShutdown();
    Turret.CanonicalNameResolves(k);
    TurretManager.CanonicalNamesIgnored(k);
  }

  /** "STOP SERVER" shuts `turret.py` down and is ignored by the manager. */
  lemma DifferOnStopServer(p: string)
    requires p == "STOP SERVER"
    ensures Turret.Resolve(p) == Dispatch(0)
    ensures TurretManager.Resolve(p) == Unrecognized
  {
    Turret.PhraseResolves(p);
    assert p[0] == 'S' && p[1] == 'T';
  }

  /** A bare speed phrase means the zero-speed code to `turret.py` and
      raises IndexError in the manager. */
  lemma DifferOnBareSpeedPhrases(p: string)
    requires p == TurretManager.InCmdRotate || p == TurretManager.InCmdPitch
    ensures Turret.Resolve(p) == Dispatch(if p == TurretManager.InCmdRotate then 0x30 else 0x45)
    ensures TurretManager.Resolve(p) == Raised(IndexError)
  {
    SpeedPhraseCodes(p);
    Turret.PhraseResolves(p);
    TurretManager.BareSpeedPhraseRaises(p);
  }

  /** The manager matches only a prefix, so "ROTATE SPEEDY 5" rotates
      there; `turret.py` looks up "ROTATE SPEEDY" and ignores it. */
  lemma DifferOnLongerPrefix(w: string, n: int)
    requires w != [] && ' ' !in w
    ensures Turret.Resolve(TurretManager.InCmdRotate + w + " " + Decimal(n)) == Unrecognized
    ensures TurretManager.Resolve(TurretManager.InCmdRotate + w + " " + Decimal(n)) == Dispatch(0x30 + n)
  {
    TurretIgnoresLongerPrefix(TurretManager.InCmdRotate + w, w, n);
    TurretManager.LongerPrefixRotates(TurretManager.InCmdRotate + w, w, n);
  }

  lemma TurretIgnoresLongerPrefix(key: string, w: string, n: int)
    requires key == TurretManager.InCmdRotate + w && w != [] && ' ' !in w
    ensures Turret.Resolve(key + " " + Decimal(n)) == Unrecognized
  {
    assert key == "ROTATE" + " " + ("SPEED" + w);
    TwoWords(key, "ROTATE", "SPEED" + w);
    ParseIntDecimal(n);
    Turret.SpeedKeyResolves(key, Decimal(n), n);
    LongerKeyUnknown(key, w);
  }

  /** "ROTATE SPEED" with more letters attached is in neither table. */
  lemma LongerKeyUnknown(key: string, w: string)
    requires key == TurretManager.InCmdRotate + w && w != []
    ensures key !in Config.InCmd && key !in Config.SerialCmd
  {
    Config.CanonicalNames();
    assert key[6] == ' ';
    assert |key| > 12;
  }

  /** The three two-word exact phrases are phrases of `config.py`. */
  lemma ExactPhraseCodes(p: string)
    requires p == TurretManager.InCmdCeaseFire || p == TurretManager.InCmdSafetyOn
      || p == TurretManager.InCmdSafetyOff
    ensures p in Config.InCmd && p != "FIRE"
    ensures Config.SerialCmd[Config.InCmd[p]] ==
      if p == TurretManager.InCmdCeaseFire then 0x22
      else if p == TurretManager.InCmdSafetyOn then 0x23 else 0x24
  {
  }

  /** A speed after an exact phrase changes the code in `turret.py` ("CEASE
      FIRE -1" fires) and makes the command unknown to the manager. */
  lemma DifferOnSpeedAfterExactPhrase(p: string, n: int)
    requires p == TurretManager.InCmdCeaseFire || p == TurretManager.InCmdSafetyOn
      || p == TurretManager.InCmdSafetyOff
    ensures Turret.Resolve(p + " " + Decimal(n)) == Dispatch(
      (if p == TurretManager.InCmdCeaseFire then 0x22
       else if p == TurretManager.InCmdSafetyOn then 0x23 else 0x24) + n)
    ensures TurretManager.Resolve(p + " " + Decimal(n)) == Unrecognized
  {
    ExactPhraseCodes(p);
    Turret.SpeedPhraseDecimal(p, n);
    var c := p + " " + Decimal(n);
    assert c[..|p|] == p;
    TurretManager.ExtendedExactPhraseIgnored(p, c);
  }
}
