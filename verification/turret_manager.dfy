/** The older relay `turret-manager.py`: the codes are constants in the
    program, a command string is matched by an if/elif chain of exact
    phrases and two speed prefixes, every resolved value is written (there
    is no shutdown sentinel), and each connection keeps its own password
    gate. */
module TurretManager {
  import opened PyStr
  import opened Protocol
  import ManagerConfig

  const CmdFire := 0x21
  const CmdStopFire := 0x22
  const CmdSafetyOn := 0x23
  const CmdSafetyOff := 0x24
  const CmdReboot := 0x25
  const CmdRotateLeftMax := 0x26
  const CmdRotateZero := 0x30
  const CmdRotateRightMax := 0x3A
  const CmdPitchDownMax := 0x3B
  const CmdPitchZero := 0x45
  const CmdPitchUpMax := 0x4F

  const InCmdFire := "FIRE"
  const InCmdCeaseFire := "CEASE FIRE"
  const InCmdSafetyOn := "SAFETY ON"
  const InCmdSafetyOff := "SAFETY OFF"
  const InCmdRotate := "ROTATE SPEED"
  const InCmdPitch := "PITCH SPEED"

  const LoginSuccessful := "Login successful"
  const InvalidPassword := "Invalid password."

  /** The hard-coded constants are the codes of the shipped table. */
  lemma ConstantsMatchConfigTable()
    ensures ManagerConfig.SerialCmd == map[
      "FIRE" := CmdFire, "STOP_FIRE" := CmdStopFire, "SAFETY_ON" := CmdSafetyOn,
      "SAFETY_OFF" := CmdSafetyOff, "REBOOT" := CmdReboot,
      "ROTATE_LEFT_MAX" := CmdRotateLeftMax, "ROTATE_ZERO" := CmdRotateZero,
      "ROTATE_RIGHT_MAX" := CmdRotateRightMax, "PITCH_DOWN_MAX" := CmdPitchDownMax,
      "PITCH_ZERO" := CmdPitchZero, "PITCH_UP_MAX" := CmdPitchUpMax]
  {
  }

  /** The speed branch: `command.split(' ')[2]` raises IndexError on fewer
      than three tokens, then `int()` raises ValueError on a token it does
      not read as an integer, and otherwise the value is the zero code plus
      the speed. */
  function SpeedFrom(command: string, zero: int): (r: Resolved)
    ensures !r.Unrecognized?
    ensures r == Raised(IndexError) <==> |Split(command, ' ')| < 3
  {
    var tokens := Split(command, ' ');
    if |tokens| < 3 then Raised(IndexError)
    else match ParseInt(tokens[2])
      case None => Raised(ValueError)
      case Some(speed) => Dispatch(zero + speed)
  }

  /** `TurretCommandServer.process_incoming_command` up to the call of
      `command_turret`. */
  function Resolve(command: string): (r: Resolved)
    ensures r.Raised? ==> StartsWith(command, InCmdRotate) || StartsWith(command, InCmdPitch)
    ensures r.Dispatch? && !StartsWith(command, InCmdRotate) && !StartsWith(command, InCmdPitch)
      ==> r.value in {CmdFire, CmdStopFire, CmdSafetyOn, CmdSafetyOff}
  {
    if command == InCmdFire then Dispatch(CmdFire)
    else if command == InCmdCeaseFire then Dispatch(CmdStopFire)
    else if command == InCmdSafetyOn then Dispatch(CmdSafetyOn)
    else if command == InCmdSafetyOff then Dispatch(CmdSafetyOff)
    else if StartsWith(command, InCmdRotate) then SpeedFrom(command, CmdRotateZero)
    else if StartsWith(command, InCmdPitch) then SpeedFrom(command, CmdPitchZero)
    else Unrecognized
  }

  /** The four exact phrases send their codes. */
  lemma ExactPhrases()
    ensures Resolve(InCmdFire) == Dispatch(0x21)
    ensures Resolve(InCmdCeaseFire) == Dispatch(0x22)
    ensures Resolve(InCmdSafetyOn) == Dispatch(0x23)
    ensures Resolve(InCmdSafetyOff) == Dispatch(0x24)
  {
  }

  /** The exact phrases of the chain are the phrases of the shipped table
      that take no speed, with the codes that table gives them. */
  lemma ExactPhrasesMatchTable(p: string)
    requires p in ManagerConfig.InCmd && p != InCmdRotate && p != InCmdPitch
    ensures Resolve(p) == Dispatch(ManagerConfig.SerialCmd[ManagerConfig.InCmd[p]])
  {
  }

  /** A command is ignored exactly when it is none of the four phrases and
      starts with neither speed prefix. */
  lemma UnrecognizedExactly(c: string)
    ensures Resolve(c) == Unrecognized <==>
      c != InCmdFire && c != InCmdCeaseFire && c != InCmdSafetyOn && c != InCmdSafetyOff
      && !StartsWith(c, InCmdRotate) && !StartsWith(c, InCmdPitch)
  {
  }

  /** Any command that starts with "ROTATE SPEED" takes the rotate branch:
      it is none of the exact phrases. */
  lemma RotatePrefix(c: string)
    requires StartsWith(c, InCmdRotate)
    ensures Resolve(c) == SpeedFrom(c, CmdRotateZero)
  {
    assert c[0] == 'R';
  }

  /** Any command that starts with "PITCH SPEED" takes the pitch branch. */
  lemma PitchPrefix(c: string)
    requires StartsWith(c, InCmdPitch)
    ensures Resolve(c) == SpeedFrom(c, CmdPitchZero)
  {
    assert c[0] == 'P';
  }

  /** Both speed prefixes are two tokens. */
  lemma SpeedPrefixTokens(prefix: string)
    requires prefix == InCmdRotate || prefix == InCmdPitch
    ensures |Split(prefix, ' ')| == 2
  {
    if prefix == InCmdRotate {
      TwoWords(prefix, "ROTATE", "SPEED");
    } else {
      TwoWords(prefix, "PITCH", "SPEED");
    }
  }

  /** A two-token prefix followed by a space and a space-free token `int()`
      reads as n gives the zero code plus n. */
  lemma SpeedFromArgument(prefix: string, zero: int, arg: string, n: int)
    requires |Split(prefix, ' ')| == 2 && ' ' !in arg && ParseInt(arg) == Some(n)
    ensures SpeedFrom(prefix + " " + arg, zero) == Dispatch(zero + n)
  {
    var tokens := Split(prefix + " " + arg, ' ');
    SplitLastWord(prefix, arg, ' ');
    assert |tokens| == 3 && tokens[2] == arg;
  }

  /** A speed prefix followed by a space and a space-free token `int()`
      reads as n sends the zero code plus n. */
  lemma SpeedArgument(prefix: string, zero: int, arg: string, n: int)
    requires prefix == InCmdRotate || prefix == InCmdPitch
    requires zero == if prefix == InCmdRotate then CmdRotateZero else CmdPitchZero
    requires ' ' !in arg && ParseInt(arg) == Some(n)
    ensures Resolve(prefix + " " + arg) == Dispatch(zero + n)
  {
    var c := prefix + " " + arg;
    assert StartsWith(c, prefix);
    if prefix == InCmdRotate {
      RotatePrefix(c);
    } else {
      PitchPrefix(c);
    }
    SpeedPrefixTokens(prefix);
    SpeedFromArgument(prefix, zero, arg, n);
  }

  /** In particular "ROTATE SPEED" or "PITCH SPEED" followed by `str(n)`
      sends 0x30 + n or 0x45 + n, for every integer n. */
  lemma SpeedDecimal(p: string, n: int)
    requires p == InCmdRotate || p == InCmdPitch
    ensures Resolve(p + " " + Decimal(n)) == Dispatch((if p == InCmdRotate then 0x30 else 0x45) + n)
  {
    ParseIntDecimal(n);
    SpeedArgument(p, if p == InCmdRotate then CmdRotateZero else CmdPitchZero, Decimal(n), n);
  }

  /** Only a prefix is matched: "ROTATE SPEED" with more letters attached
      ("ROTATE SPEEDY 5") still rotates. */
  lemma LongerPrefixRotates(key: string, w: string, n: int)
    requires key == InCmdRotate + w && ' ' !in w
    ensures Resolve(key + " " + Decimal(n)) == Dispatch(0x30 + n)
  {
    assert key == "ROTATE" + " " + ("SPEED" + w);
    TwoWords(key, "ROTATE", "SPEED" + w);
    ParseIntDecimal(n);
    PrefixOfExtension(key + " " + Decimal(n), key, InCmdRotate);
    RotatePrefix(key + " " + Decimal(n));
    SpeedFromArgument(key, CmdRotateZero, Decimal(n), n);
  }

  lemma PrefixOfExtension(c: string, key: string, prefix: string)
    requires key <= c && prefix <= key
    ensures StartsWith(c, prefix)
  {
  }


  /** A string that strictly extends "CEASE FIRE", "SAFETY ON" or
      "SAFETY OFF" (the phrase with a speed, say) matches nothing. */
  lemma ExtendedExactPhraseIgnored(p: string, c: string)
    requires p == InCmdCeaseFire || p == InCmdSafetyOn || p == InCmdSafetyOff
    requires |c| > |p| && c[..|p|] == p
    ensures Resolve(c) == Unrecognized
  {
    if p == InCmdCeaseFire {
      assert c[0] == 'C';
    } else if p == InCmdSafetyOn {
      assert c[0] == 'S' && c[8] == 'N';
    } else {
      assert c[0] == 'S' && |c| > 10;
    }
  }

  /** A speed prefix without a third token raises IndexError; in particular
      the bare phrase "ROTATE SPEED" does. */
  lemma MissingSpeedRaises(c: string)
    requires StartsWith(c, InCmdRotate) || StartsWith(c, InCmdPitch)
    requires |Split(c, ' ')| < 3
    ensures Resolve(c) == Raised(IndexError)
  {
    if StartsWith(c, InCmdRotate) {
      RotatePrefix(c);
    } else {
      PitchPrefix(c);
    }
  }

  /** A speed prefix with a third token `int()` rejects raises ValueError. */
  lemma BadSpeedRaises(c: string)
    requires StartsWith(c, InCmdRotate) || StartsWith(c, InCmdPitch)
    requires |Split(c, ' ')| >= 3 && ParseInt(Split(c, ' ')[2]).None?
    ensures Resolve(c) == Raised(ValueError)
  {
    if StartsWith(c, InCmdRotate) {
      RotatePrefix(c);
    } else {
      PitchPrefix(c);
    }
  }

  /** The bare speed phrases have only two tokens, so they raise. */
  lemma BareSpeedPhraseRaises(p: string)
    requires p == InCmdRotate || p == InCmdPitch
    ensures Resolve(p) == Raised(IndexError)
  {
    SpeedPrefixTokens(p);
    MissingSpeedRaises(p);
  }

  /** Canonical names are not commands here: apart from "FIRE", which is
      also a phrase, every name of the table is ignored, so REBOOT and the
      MAX codes cannot be requested by name. */
  lemma CanonicalNamesIgnored(k: string)
    requires k in ManagerConfig.SerialCmd && k != "FIRE"
    ensures Resolve(k) == Unrecognized
  {
    ManagerConfig.CanonicalNames();
    SpaceFreeIgnored(k);
  }

  /** A single word other than "FIRE" matches nothing: every other phrase
      and both prefixes contain a space. */
  lemma SpaceFreeIgnored(k: string)
    requires ' ' !in k && k != InCmdFire
    ensures Resolve(k) == Unrecognized
  {
    assert InCmdCeaseFire[5] == ' ' && InCmdSafetyOn[6] == ' ' && InCmdSafetyOff[6] == ' ';
    assert InCmdRotate[6] == ' ' && InCmdPitch[5] == ' ';
  }

  /** Every value this variant sends is an exact-phrase code or a zero code
      plus a parsed speed. */
  lemma DispatchedValues(c: string)
    requires Resolve(c).Dispatch?
    ensures Resolve(c).value in {CmdFire, CmdStopFire, CmdSafetyOn, CmdSafetyOff}
      || (exists n :: ParseInt(Split(c, ' ')[2]) == Some(n)
            && Resolve(c).value == (if StartsWith(c, InCmdRotate) then CmdRotateZero else CmdPitchZero) + n)
  {
    if c !in {InCmdFire, InCmdCeaseFire, InCmdSafetyOn, InCmdSafetyOff} {
      var n := ParseInt(Split(c, ' ')[2]).value;
      assert ParseInt(Split(c, ' ')[2]) == Some(n);
    }
  }

  /** The codes `command_turret` writes for one resolved command: the value
      whenever the serial port is in use; this variant has no shutdown
      sentinel, so even 0 is written. */
  function Written(r: Resolved, noTurret: bool): (codes: seq<int>)
    ensures |codes| <= 1
    ensures codes != [] <==> r.Dispatch? && !noTurret
    ensures codes != [] ==> codes[0] == r.value
  {
    if r.Dispatch? && !noTurret then [r.value] else []
  }

  /** The module-level serial connection `arduino_serial_conn`. */
  class SerialLink {
    const noTurret: bool
    /** Every value handed to the port's `write`, in order. */
    var written: seq<int>

    constructor (noTurret: bool)
      ensures this.noTurret == noTurret && written == []
    {
      this.noTurret := noTurret;
      written := [];
    }

    /** `command_turret`: write the value unless the port is unused. */
    method CommandTurret(command: int)
      modifies this
      ensures noTurret ==> written == old(written)
      ensures !noTurret ==> written == old(written) + [command]
    {
      if !noTurret {
        written := written + [command];
      }
    }
  }

  /** The codes `test_turret_commands` sends, in order. */
  const TestScript: seq<int> :=
    [0x24, 0x23, 0x24, 0x21, 0x22, 0x29, 0x33, 0x4F, 0x44, 0x33, 0x21, 0x22, 0x23]

  /** `test_turret_commands`: the scripted sequence, pauses left out. */
  method TestTurretCommands(link: SerialLink)
    modifies link
    ensures link.noTurret ==> link.written == old(link.written)
    ensures !link.noTurret ==> link.written == old(link.written) + TestScript
  {
    link.CommandTurret(CmdSafetyOff);
    link.CommandTurret(CmdSafetyOn);
    link.CommandTurret(CmdSafetyOff);
    link.CommandTurret(CmdFire);
    link.CommandTurret(CmdStopFire);
    link.CommandTurret(CmdRotateZero - 7);
    link.CommandTurret(CmdRotateZero + 3);
    link.CommandTurret(CmdPitchUpMax);
    link.CommandTurret(CmdPitchZero - 1);
    link.CommandTurret(CmdRotateZero + 3);
    link.CommandTurret(CmdFire);
    link.CommandTurret(CmdStopFire);
    link.CommandTurret(CmdSafetyOn);
  }

  /** The script leaves the turret safe: every FIRE is directly followed by
      STOP_FIRE, it ends with SAFETY_ON, it never sends REBOOT, and each
      movement stays within the speed limits of its axis (the rotations
      0x29 and 0x33 within 0x26..0x3A, the pitches 0x4F and 0x44 within
      0x3B..0x4F). */
  lemma TestScriptIsSafe()
    ensures forall i :: 0 <= i < |TestScript| && TestScript[i] == CmdFire ==>
      i + 1 < |TestScript| && TestScript[i + 1] == CmdStopFire
    ensures TestScript[|TestScript| - 1] == CmdSafetyOn
    ensures forall i :: 0 <= i < |TestScript| ==> CmdFire <= TestScript[i] <= CmdPitchUpMax
    ensures forall i :: 0 <= i < |TestScript| ==> TestScript[i] != CmdReboot
    ensures forall i :: i in {5, 6, 9} ==> CmdRotateLeftMax <= TestScript[i] <= CmdRotateRightMax
    ensures forall i :: i in {7, 8} ==> CmdPitchDownMax <= TestScript[i] <= CmdPitchUpMax
  {
  }

  /** One connection of `TurretCommandServer`. Assigning `is_validated`
      creates an instance attribute, so the password gate is per connection;
      the serial connection is the one module-level object. */
  class CommandServer {
    const password: string
    /** `validationBypass`: the state a connection starts in. */
    const checkIfValid: bool
    var isValidated: bool
    var replies: seq<string>
    var closed: bool
    const link: SerialLink

    constructor (settings: Settings, link: SerialLink)
      ensures password == settings.password && checkIfValid == settings.validationBypass
      ensures isValidated == checkIfValid && replies == [] && !closed && this.link == link
    {
      password := settings.password;
      checkIfValid := settings.validationBypass;
      isValidated := settings.validationBypass;
      replies := [];
      closed := false;
      this.link := link;
    }

    /** `process_incoming_command`: resolve and hand the value, if any, to
        `command_turret`. */
    method ProcessIncomingCommand(command: string)
      modifies link
      ensures link.written == old(link.written) + Written(Resolve(command), link.noTurret)
    {
      var r := Resolve(command);
      if r.Dispatch? {
        link.CommandTurret(r.value);
      }
    }

    /** `validate_client`: the right password validates this connection and
        is acknowledged; a wrong one is answered and the connection closed,
        the state left as it was. */
    method ValidateClient(data: string)
      modifies this
      ensures data == password ==> isValidated && closed == old(closed)
                                   && replies == old(replies) + [LoginSuccessful]
      ensures data != password ==> isValidated == old(isValidated) && closed
                                   && replies == old(replies) + [InvalidPassword]
    {
      if data == password {
        isValidated := true;
        replies := replies + [LoginSuccessful];
      } else {
        replies := replies + [InvalidPassword];
        closed := true;
      }
    }

    /** `handleMessage`: on a validated connection a message is a command;
        otherwise it is a password. */
    method HandleMessage(data: string)
      modifies this, link
      ensures old(isValidated) ==>
        isValidated && replies == old(replies) && closed == old(closed)
        && link.written == old(link.written) + Written(Resolve(data), link.noTurret)
      ensures !old(isValidated) ==>
        link.written == old(link.written)
        && (isValidated <==> data == password)
        && replies == old(replies) + [if data == password then LoginSuccessful else InvalidPassword]
        && (closed <==> old(closed) || data != password)
    {
      if isValidated {
        ProcessIncomingCommand(data);
      } else {
        ValidateClient(data);
      }
    }

    /** `handleClose`: this connection returns to the initial state. */
    method HandleClose()
      modifies this
      ensures isValidated == checkIfValid && replies == old(replies) && closed == old(closed)
    {
      isValidated := checkIfValid;
    }
  }

  /** With the shipped `turretManagerConfig.py` (`validationBypass` set,
      `noTurret` set) a connection starts out validated and the serial port
      is unused. */
  method ShippedSettingsSkipLogin() returns (server: CommandServer)
    ensures server.isValidated && server.link.noTurret && server.replies == [] && !server.closed
  {
    var link := new SerialLink(ManagerConfig.TurretConfig.noTurret);
    server := new CommandServer(ManagerConfig.TurretConfig, link);
  }

  /** A login on connection `a` leaves connection `b` as it was: `b`'s next
      message is still read as a password, so nothing reaches the turret. */
  method LoginIsPerConnection(a: CommandServer, b: CommandServer, message: string)
    requires a != b && a.link == b.link && !a.isValidated && !b.isValidated
    modifies a, b, a.link
    ensures a.isValidated
    ensures a.link.written == old(a.link.written)
    ensures b.isValidated <==> message == b.password
  {
    a.HandleMessage(a.password);
    b.HandleMessage(message);
  }
}
