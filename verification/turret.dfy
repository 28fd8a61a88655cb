/** The table-driven relay `turret.py`: a command string is looked up in the
    tables of `config.py`, an optional third token adds a signed speed, and
    the resulting value is written to the turret unless it is the shutdown
    sentinel 0. One commander object, shared by every connection, holds the
    password gate. */
module Turret {
  import opened PyStr
  import opened Protocol
  import Config

  const LoginSuccessful := "Login successful"
  const InvalidPassword := "Invalid password. Connection terminated."

  /** The code table entry for a lookup key, plus the speed: a phrase of
      `IN_CMD` is tried first, then a canonical name of `SERIAL_CMD`. */
  function Lookup(key: string, speed: int): (r: Resolved)
    ensures r.Dispatch? <==> key in Config.InCmd || key in Config.SerialCmd
    ensures !r.Raised?
    ensures key in Config.InCmd ==> r == Dispatch(Config.SerialCmd[Config.InCmd[key]] + speed)
    ensures key !in Config.InCmd && key in Config.SerialCmd ==> r == Dispatch(Config.SerialCmd[key] + speed)
    ensures r.Dispatch? ==> r.value - speed in Config.SerialCmd.Values
  {
    if key in Config.InCmd then Dispatch(Config.SerialCmd[Config.InCmd[key]] + speed)
    else if key in Config.SerialCmd then Dispatch(Config.SerialCmd[key] + speed)
    else Unrecognized
  }

  /** `TurretCommander.process_incoming_command` up to the call of
      `command_turret`: with more than two space-separated tokens the third
      is the speed, and the key is the command without that token's length
      plus one characters at its end. */
  function Resolve(command: string): (r: Resolved)
    ensures r.Raised? ==> r.error == ValueError
    ensures |Split(command, ' ')| <= 2 && r.Dispatch? ==> r.value in Config.SerialCmd.Values
  {
    var tokens := Split(command, ' ');
    if |tokens| > 2 then
      match ParseInt(tokens[2])
      case None => Raised(ValueError)
      case Some(speed) => Lookup(SliceTo(command, -(|tokens[2]| + 1)), speed)
    else Lookup(command, 0)
  }

  /** Only an unparsable speed raises, and then a ValueError: the third
      token is read only when it exists, so IndexError cannot occur. */
  lemma RaisesOnlyOnBadSpeed(c: string)
    ensures Resolve(c).Raised? <==> |Split(c, ' ')| > 2 && ParseInt(Split(c, ' ')[2]).None?
    ensures Resolve(c).Raised? ==> Resolve(c).error == ValueError
  {
  }

  /** A command of at most two tokens is looked up whole, with speed 0. */
  lemma ShortCommand(c: string)
    requires |Split(c, ' ')| <= 2
    ensures Resolve(c) == Lookup(c, 0)
  {
  }

  /** Every phrase of `IN_CMD`, sent as it is, resolves to its table code. */
  lemma PhraseResolves(p: string)
    requires p in Config.InCmd
    ensures Resolve(p) == Dispatch(Config.SerialCmd[Config.InCmd[p]])
  {
    PhraseTokens(p);
    ShortCommand(p);
  }

  /** "FIRE" is one token; every other phrase of `IN_CMD` is two. */
  lemma PhraseTokens(p: string)
    requires p in Config.InCmd
    ensures |Split(p, ' ')| == if p == "FIRE" then 1 else 2
  {
    PhraseListed(p);
    PhraseListTokens(p);
  }

  lemma PhraseListed(p: string)
    requires p in Config.InCmd
    ensures p == "FIRE" || p == "CEASE FIRE" || p == "SAFETY ON" || p == "SAFETY OFF"
      || p == "ROTATE SPEED" || p == "PITCH SPEED" || p == "STOP SERVER"
  {
    Config.PhraseList();
    assert p in Config.InCmd.Keys;
  }

  lemma PhraseListTokens(p: string)
    requires p == "FIRE" || p == "CEASE FIRE" || p == "SAFETY ON" || p == "SAFETY OFF"
      || p == "ROTATE SPEED" || p == "PITCH SPEED" || p == "STOP SERVER"
    ensures |Split(p, ' ')| == if p == "FIRE" then 1 else 2
  {
    if p == "FIRE" {
      SplitNoSeparator(p, ' ');
    } else if p == "CEASE FIRE" {
      TwoWords(p, "CEASE", "FIRE");
    } else if p == "SAFETY ON" {
      TwoWords(p, "SAFETY", "ON");
    } else if p == "SAFETY OFF" {
      TwoWords(p, "SAFETY", "OFF");
    } else if p == "ROTATE SPEED" {
      TwoWords(p, "ROTATE", "SPEED");
    } else if p == "PITCH SPEED" {
      TwoWords(p, "PITCH", "SPEED");
    } else {
      TwoWords(p, "STOP", "SERVER");
    }
  }

  /** Every canonical name of `SERIAL_CMD`, sent as it is, resolves to its
      own code, so every code in the table is reachable. */
  lemma CanonicalNameResolves(k: string)
    requires k in Config.SerialCmd
    ensures Resolve(k) == Dispatch(Config.SerialCmd[k])
  {
    Config.CanonicalNames();
    Config.SharedName();
    SplitNoSeparator(k, ' ');
    ShortCommand(k);
  }

  /** A two-word key followed by a space and a space-free token that
      `int()` reads as n is looked up as that key with speed n. */
  lemma SpeedKeyResolves(key: string, arg: string, n: int)
    requires |Split(key, ' ')| == 2 && ' ' !in arg && ParseInt(arg) == Some(n)
    ensures Resolve(key + " " + arg) == Lookup(key, n)
  {
    KeyAndArgument(key, arg);
    SpeedCommand(key + " " + arg, n);
  }

  /** A two-word key, a space and a space-free token split into three
      tokens, and cutting the last token and the space gives back the key. */
  lemma KeyAndArgument(key: string, arg: string)
    requires |Split(key, ' ')| == 2 && ' ' !in arg
    ensures |Split(key + " " + arg, ' ')| == 3 && Split(key + " " + arg, ' ')[2] == arg
    ensures SliceTo(key + " " + arg, -(|arg| + 1)) == key
  {
    SplitLastWord(key, arg, ' ');
    SliceToDropsSuffix(key, " " + arg);
    assert key + " " + arg == key + (" " + arg);
  }

  /** A two-word phrase followed by a space and a space-free token that
      `int()` reads as n resolves to the phrase's code plus n. */
  lemma SpeedPhraseResolves(phrase: string, arg: string, n: int)
    requires phrase in Config.InCmd && |Split(phrase, ' ')| == 2
    requires ' ' !in arg && ParseInt(arg) == Some(n)
    ensures Resolve(phrase + " " + arg) == Dispatch(Config.SerialCmd[Config.InCmd[phrase]] + n)
  {
    SpeedKeyResolves(phrase, arg, n);
  }

  /** In particular a phrase followed by `str(n)` resolves to its code plus n. */
  lemma SpeedPhraseDecimal(phrase: string, n: int)
    requires phrase in Config.InCmd && phrase != "FIRE"
    ensures Resolve(phrase + " " + Decimal(n)) == Dispatch(Config.SerialCmd[Config.InCmd[phrase]] + n)
  {
    PhraseTokens(phrase);
    ParseIntDecimal(n);
    SpeedPhraseResolves(phrase, Decimal(n), n);
  }

  /** With three or more tokens the third one is parsed as the speed. */
  lemma ThreeOrMoreTokens(c: string)
    requires |Split(c, ' ')| > 2
    ensures Resolve(c) == match ParseInt(Split(c, ' ')[2])
      case None => Raised(ValueError)
      case Some(speed) => Lookup(SliceTo(c, -(|Split(c, ' ')[2]| + 1)), speed)
  {
  }

  /** A command of three or more tokens whose third is a decimal integer n
      is looked up without that token and the space before it, with speed n. */
  lemma SpeedCommand(c: string, n: int)
    requires |Split(c, ' ')| > 2 && ParseInt(Split(c, ' ')[2]) == Some(n)
    ensures Resolve(c) == Lookup(SliceTo(c, -(|Split(c, ' ')[2]| + 1)), n)
  {
    ThreeOrMoreTokens(c);
  }

  /** Without a speed argument the value 0, and so a shutdown, comes from
      "STOP SERVER" and "STOP_SERVER" and from nothing else. */
  lemma ZeroOnlyFromStopServer(c: string)
    requires |Split(c, ' ')| <= 2
    ensures Resolve(c) == Dispatch(0) <==> c == "STOP SERVER" || c == "STOP_SERVER"
  {
    Config.StopServerIsOnlyZero();
    Config.InCmdTargetsExist();
    if c in Config.InCmd {
      assert Config.SerialCmd[Config.InCmd[c]] == 0 ==> Config.InCmd[c] == "STOP_SERVER";
    }
  }

  /** Without a speed argument, a command is recognized exactly when it is a
      phrase or a canonical name, and then its value is a code of the table. */
  lemma NoArgumentCommands(c: string)
    requires |Split(c, ' ')| <= 2
    ensures Resolve(c) == Unrecognized <==> c !in Config.InCmd && c !in Config.SerialCmd
    ensures Resolve(c).Dispatch? ==> Resolve(c).value in Config.SerialCmd.Values
  {
    Config.InCmdTargetsExist();
    if c in Config.InCmd {
      assert Config.InCmd[c] in Config.SerialCmd;
    }
  }

  /** Every two-word phrase of `IN_CMD` followed by a speed can produce any
      value at all, the shutdown sentinel 0 and the codes of other phrases
      included: "CEASE FIRE -1" yields the FIRE code. */
  lemma SpeedReachesAnyValue(phrase: string, v: int)
    requires phrase in Config.InCmd && phrase != "FIRE"
    ensures Resolve(phrase + " " + Decimal(v - Config.SerialCmd[Config.InCmd[phrase]])) == Dispatch(v)
  {
    SpeedPhraseDecimal(phrase, v - Config.SerialCmd[Config.InCmd[phrase]]);
  }

  /** A third token `int()` rejects raises ValueError, whatever the first two. */
  lemma BadSpeedRaises(key: string, arg: string)
    requires |Split(key, ' ')| == 2 && ' ' !in arg && ParseInt(arg) == None
    ensures Resolve(key + " " + arg) == Raised(ValueError)
  {
    SplitLastWord(key, arg, ' ');
    ThreeOrMoreTokens(key + " " + arg);
  }

  /** The codes `command_turret` writes for one resolved command: the value
      itself, unless it is the shutdown sentinel 0 or the serial port is
      unused, in which case nothing. */
  function Written(r: Resolved, noTurret: bool): (codes: seq<int>)
    ensures |codes| <= 1
    ensures codes != [] <==> r.Dispatch? && r.value != 0 && !noTurret
    ensures codes != [] ==> codes[0] == r.value
  {
    if r.Dispatch? && r.value != 0 && !noTurret then [r.value] else []
  }

  /** The serial connection to the turret together with the process-wide
      `exiting` flag that `cleanup` raises before the process ends. */
  class SerialLink {
    const noTurret: bool
    /** Every value handed to the port's `write`, in order. */
    var written: seq<int>
    var exiting: bool

    constructor (noTurret: bool)
      ensures this.noTurret == noTurret && written == [] && !exiting
    {
      this.noTurret := noTurret;
      written := [];
      exiting := false;
    }

    /** `command_turret`: the value 0 shuts the relay down without writing;
        any other value is written and returned, or, with the serial port
        unused, not written and returned plus one. */
    method CommandTurret(command: int) returns (ret: Option<int>)
      requires !exiting
      modifies this
      ensures exiting <==> command == 0
      ensures ret == if command == 0 then None
                     else if noTurret then Some(command + 1) else Some(command)
      ensures written == old(written) + Written(Dispatch(command), noTurret)
    {
      if command == 0 {
        exiting := true;
        return None;
      }
      if !noTurret {
        written := written + [command];
        return Some(command);
      }
      return Some(command + 1);
    }
  }

  /** `TurretCommander`: the tables, the password, the initial validation
      state and the current one. */
  class Commander {
    const password: string
    /** `validationBypass`: the state a connection starts in. */
    const checkIfValid: bool
    var isValidated: bool
    const link: SerialLink

    constructor (settings: Settings, link: SerialLink)
      ensures password == settings.password && checkIfValid == settings.validationBypass
      ensures isValidated == checkIfValid && this.link == link
    {
      password := settings.password;
      checkIfValid := settings.validationBypass;
      isValidated := settings.validationBypass;
      this.link := link;
    }

    /** `reset_validation`: back to the configured initial state. */
    method ResetValidation()
      requires !link.exiting
      modifies this
      ensures isValidated == checkIfValid
    {
      isValidated := checkIfValid;
    }

    /** `validate_client`: the right password validates and is acknowledged;
        a wrong one is answered and the connection closed, the state left
        as it was. */
    method ValidateClient(data: string, client: Session)
      requires !link.exiting
      modifies this, client
      ensures data == password ==> isValidated && client.closed == old(client.closed)
                                   && client.replies == old(client.replies) + [LoginSuccessful]
      ensures data != password ==> isValidated == old(isValidated) && client.closed
                                   && client.replies == old(client.replies) + [InvalidPassword]
    {
      if data == password {
        isValidated := true;
        client.SendMessage(LoginSuccessful);
      } else {
        client.SendMessage(InvalidPassword);
        client.Close();
      }
    }

    /** `process_incoming_command`: resolve the command and hand the value,
        if any, to `command_turret`; an unrecognized command or an exception
        leaves the turret untouched. */
    method ProcessIncomingCommand(command: string)
      requires !link.exiting
      modifies link
      ensures link.written == old(link.written) + Written(Resolve(command), link.noTurret)
      ensures link.exiting <==> Resolve(command) == Dispatch(0)
    {
      var r := Resolve(command);
      if r.Dispatch? {
        var _ := link.CommandTurret(r.value);
      }
    }
  }

  /** One WebSocket connection of `TurretWebSocketServer`. The commander is
      a class attribute in the source, so every connection holds the same
      one. */
  class Session {
    const tc: Commander
    var replies: seq<string>
    var closed: bool

    constructor (tc: Commander)
      ensures this.tc == tc && replies == [] && !closed
    {
      this.tc := tc;
      replies := [];
      closed := false;
    }

    method SendMessage(text: string)
      modifies this
      ensures replies == old(replies) + [text] && closed == old(closed)
    {
      replies := replies + [text];
    }

    method Close()
      modifies this
      ensures closed && replies == old(replies)
    {
      closed := true;
    }

    /** `handleMessage`: while the shared state is validated a message is a
        command; otherwise it is a password. */
    method HandleMessage(data: string)
      requires !tc.link.exiting
      modifies this, tc, tc.link
      ensures old(tc.isValidated) ==>
        tc.isValidated && replies == old(replies) && closed == old(closed)
        && tc.link.written == old(tc.link.written) + Written(Resolve(data), tc.link.noTurret)
        && (tc.link.exiting <==> Resolve(data) == Dispatch(0))
      ensures !old(tc.isValidated) ==>
        tc.link.written == old(tc.link.written) && !tc.link.exiting
        && (tc.isValidated <==> data == tc.password)
        && replies == old(replies) + [if data == tc.password then LoginSuccessful else InvalidPassword]
        && (closed <==> old(closed) || data != tc.password)
    {
      if tc.isValidated {
        tc.ProcessIncomingCommand(data);
      } else {
        tc.ValidateClient(data, this);
      }
    }

    /** `handleClose`: the shared state returns to its initial value. */
    method HandleClose()
      requires !tc.link.exiting
      modifies tc
      ensures tc.isValidated == tc.checkIfValid
    {
      tc.ResetValidation();
    }
  }

  /** With the shipped `config.py` (`validationBypass` set, `noTurret` set)
      the commander starts out validated, so every connection's first
      message is already a command, and the serial port is unused. */
  method ShippedSettingsSkipLogin() returns (tc: Commander)
    ensures tc.isValidated && tc.link.noTurret && !tc.link.exiting
  {
    var link := new SerialLink(Config.TurretConfig.noTurret);
    tc := new Commander(Config.TurretConfig, link);
  }

  /** Because the validation state is shared, a login on connection `a`
      lets connection `b`, which never sent the password, command the turret. */
  method LoginOnOneConnectionValidatesAll(a: Session, b: Session, command: string)
    requires a != b && a.tc == b.tc && !a.tc.isValidated && !a.tc.link.exiting
    modifies a, b, a.tc, a.tc.link
    ensures b.replies == old(b.replies)
    ensures a.tc.link.written == old(a.tc.link.written) + Written(Resolve(command), a.tc.link.noTurret)
  {
    a.HandleMessage(a.tc.password);
    b.HandleMessage(command);
  }

  /** Likewise a disconnect on `b` revokes the login of `a`: with the bypass
      off, `a`'s next message is taken as a password and nothing is sent. */
  method CloseOnOneConnectionResetsAll(a: Session, b: Session, command: string)
    requires a != b && a.tc == b.tc && !a.tc.checkIfValid && !a.tc.link.exiting
    requires command != a.tc.password
    modifies a, b, a.tc, a.tc.link
    ensures a.tc.link.written == old(a.tc.link.written)
    ensures a.closed && a.replies == old(a.replies) + [InvalidPassword]
  {
    b.HandleClose();
    a.HandleMessage(command);
  }
}
