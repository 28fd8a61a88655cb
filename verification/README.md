# Turret relay command protocol

A model of the network-to-serial relay for the Terror Turret. A client sends
text messages over a WebSocket. The relay reads the first one as a password,
unless validation is bypassed. After that, each message is a command phrase.
The relay turns a phrase into a single code and writes it to the turret's
serial port. There are two relays:

- `turret.py` (module `Turret`) is table driven.
  - It splits the command on single spaces.
  - With more than two tokens, the third token is a signed speed read by `int()`.
  - The lookup key is the command with the third token's length plus one characters cut off its end.
  - The key is looked up first among the phrases of `IN_CMD`, then among the canonical names of `SERIAL_CMD`.
  - It sends the table code plus the speed.
  - The value 0 is a shutdown sentinel: it ends the process and writes nothing.
  - One `TurretCommander`, a class attribute, holds the password state for every connection.
- `turret-manager.py` (module `TurretManager`) is older and hard-coded.
  - It uses an if/elif chain of four exact phrases and two speed prefixes.
  - It has no shutdown sentinel.
  - It has a fixed self-test script.
  - Its password state is per connection.
- `config.py` and `turretManagerConfig.py` (modules `Config` and `ManagerConfig`) hold the shipped command tables and settings.

The model has the following parts:

- Module `PyStr` models the Python string operations the relays use:
  - `str.split(' ')`, which keeps empty pieces;
  - `str.startswith`;
  - slicing with a negative stop;
  - `int()` on a string, with surrounding whitespace, an optional sign, and digits with single underscores;
  - `str()` on an int.
- `Protocol` holds the outcome of one command:
  - `Dispatch(value)`: the value handed to `command_turret`;
  - `Unrecognized`: only logged;
  - `Raised(ValueError | IndexError)`: an exception before anything reaches the turret.
- The serial port is a `SerialLink` object whose `written` sequence records every value handed to `write`.
- The connection's replies and its closed flag are fields of the session object.
- Process exit in `turret.py` is the `exiting` flag of its `SerialLink`. Writing to the port, every `Commander` operation, and `HandleMessage` and `HandleClose` on a `Session` all require it to be unset.
- The class attribute `tc` of `TurretWebSocketServer` is the `Commander` every `Session` is constructed with. The two scenario methods require both sessions to hold the same one.
- `Variants` compares the two relays command by command.

Behaviour worth knowing, kept as written:

- The comment at `turret.py:158` says `is_validated` is for the current
  connection. Yet in `turret.py` it lives in the one `tc` object that every
  connection shares. `Turret.LoginOnOneConnectionValidatesAll` and
  `Turret.CloseOnOneConnectionResetsAll` show the consequences.
- The `*_MAX` names of `config.py:20-25` suggest a speed range of ±10
  around each zero code. Neither relay enforces it, nor any range on the
  resulting code, so `Turret.SpeedReachesAnyValue` and
  `TurretManager.SpeedDecimal` hold for every integer.
- In no-turret mode, `command_turret` in `turret.py` returns the value plus
  one, to mark a command received but not written.
  `Turret.SerialLink.CommandTurret` keeps this.

## Model

| member | source | states |
|---|---|---|
| PyStr.Split | turret.py:178 | `split(' ')` never returns an empty list; `SplitJoin` and `JoinSplit` make it the inverse of joining with the separator |
| PyStr.ParseInt | turret.py:182 | `int()` reads a number only from a string that contains a decimal digit; `ParseIntDecimal` makes it the inverse of `str()` |
| PyStr.SplitJoin | turret.py:178 | joining the pieces of `split(' ')` with the separator gives back the command, so no character is lost |
| PyStr.JoinSplit | turret.py:178 | splitting a join of separator-free pieces gives back exactly those pieces |
| PyStr.SplitConcat | turret.py:178 | splitting at a separator splits the two sides independently |
| PyStr.SplitNoSeparator | turret.py:178 | a string without the separator splits into itself alone |
| PyStr.SplitPiecesLackSeparator | turret.py:178 | no piece of a split contains the separator |
| PyStr.SplitLastWord | turret.py:178-183 | a separator-free word after a final separator is the last piece |
| PyStr.TwoWords | turret.py:178 | two space-free words joined by one space split back into exactly those two words |
| PyStr.StartsWith | turret-manager.py:279-284 | `s.startswith(p)` holds exactly when p is no longer than s and agrees with s at every position of p |
| PyStr.SliceTo | turret.py:184 | `s[:stop]` is a prefix of `s`, with the length Python's clamping gives for a negative and a non-negative stop |
| PyStr.SliceToDropsSuffix | turret.py:183-184 | `command[:-len]` with `len` the length of a non-empty suffix gives back what precedes that suffix |
| PyStr.NatDecimalValue | turret.py:182 | the digits of `str(n)` form a digit run whose value is n |
| PyStr.ParseIntDecimal | turret.py:182 | `int(str(n)) == n` for every integer n, negative ones included |
| PyStr.Decimal | turret.py:182 | `str(n)` contains no space, so it is always a single token |
| Config.InCmdTargetsExist | config.py:14-38 | every phrase of `IN_CMD` names a key of `SERIAL_CMD` |
| Config.PhraseList | config.py:30-38 | the phrases of `IN_CMD` are exactly the seven listed |
| Config.CanonicalNames | config.py:14-27 | canonical names contain no space, so each is a single token |
| Config.SharedName | config.py:14-38 | "FIRE" is both a canonical name and a phrase, and it is the only such name |
| Config.StopServerIsOnlyZero | config.py:14-38 | "STOP SERVER" leads to STOP_SERVER, whose code is 0, and no other name has code 0 |
| Config.CodesInRange | config.py:15-26 | every code but the sentinel lies in 0x21..0x4F |
| Config.CodesDistinct | config.py:15-26 | no two names share a code |
| Config.LimitsAroundZero | config.py:20-25 | ROTATE_ZERO ± 10 and PITCH_ZERO ± 10 are the MAX codes of their axes |
| Config.PhrasedTargets | config.py:14-38 | a canonical name is the target of some phrase exactly when it is not REBOOT or a MAX code |
| ManagerConfig.InCmdTargetsExist | turretManagerConfig.py:13-35 | every phrase of `IN_CMD` names a key of `SERIAL_CMD` |
| ManagerConfig.CanonicalNames | turretManagerConfig.py:13-25 | canonical names contain no space |
| ManagerConfig.NoShutdownEntry | turretManagerConfig.py:13-35 | no code is 0, and there is neither a "STOP SERVER" phrase nor a STOP_SERVER name |
| ManagerConfig.LimitsAroundZero | turretManagerConfig.py:19-24 | ROTATE_ZERO ± 10 and PITCH_ZERO ± 10 are the MAX codes of their axes |
| Turret.Lookup | turret.py:185-193 | a key is sent exactly when it is a phrase or a canonical name, and a lookup never raises; a phrase is sent as the code of its target plus the speed, any other canonical name as its own code plus the speed, and every value sent is a table code plus the speed |
| Turret.Resolve | turret.py:176-193 | the only exception is ValueError, never IndexError, and a command without a speed sends only a table code; `PhraseResolves`, `CanonicalNameResolves`, `SpeedPhraseDecimal` and `RaisesOnlyOnBadSpeed` pin down the rest |
| Turret.RaisesOnlyOnBadSpeed | turret.py:178-184 | a command raises exactly when it has a third token that `int()` rejects, and then with ValueError, never IndexError |
| Turret.PhraseTokens | turret.py:178-181 | "FIRE" is one token, and every other phrase of `IN_CMD` is two |
| Turret.PhraseResolves | turret.py:178-193 | every phrase sent as it is resolves to `SERIAL_CMD[IN_CMD[phrase]]`, e.g. "SAFETY ON" to 0x23 |
| Turret.CanonicalNameResolves | turret.py:185-193 | every canonical name sent as it is resolves to its own code, so REBOOT and the MAX codes are reachable |
| Turret.SpeedKeyResolves | turret.py:178-193 | a two-word key, a space and a space-free token `int()` reads as n are looked up as that key with speed n |
| Turret.SpeedPhraseResolves | turret.py:178-193 | a two-word phrase followed by such a token resolves to the phrase's code plus n |
| Turret.SpeedPhraseDecimal | turret.py:178-193 | a two-word phrase followed by `str(n)` resolves to its code plus n, e.g. "ROTATE SPEED -7" to 0x29 |
| Turret.SpeedReachesAnyValue | turret.py:181-193 | any two-word phrase with a speed can produce any value, the shutdown sentinel and the codes of other phrases included |
| Turret.BadSpeedRaises | turret.py:182 | a third token `int()` rejects raises ValueError before anything is sent |
| Turret.ZeroOnlyFromStopServer | turret.py:176-193 | without a speed, the shutdown value comes from "STOP SERVER" and "STOP_SERVER" and nothing else |
| Turret.NoArgumentCommands | turret.py:185-193 | without a speed, a command is ignored exactly when it is in neither table, and otherwise sends a code of the table |
| Turret.Written | turret.py:95-107 | at most one value is written: the value itself, exactly when it is not the sentinel 0 and the port is in use |
| Turret.SerialLink.constructor | turret.py:28 | the port starts with nothing written and the process not exiting |
| Turret.SerialLink.CommandTurret | turret.py:95-107 | 0 ends the process and writes nothing; otherwise the value is written and returned, or, with the port unused, not written and returned plus one |
| Turret.Commander.constructor | turret.py:151-159 | the password and bypass come from the settings, and the validation state starts at the bypass value |
| Turret.Commander.ResetValidation | turret.py:161-162 | the validation state returns to the bypass value |
| Turret.Commander.ValidateClient | turret.py:164-174 | the right password validates and replies 'Login successful'; a wrong one replies 'Invalid password. Connection terminated.', closes, and leaves the state unchanged |
| Turret.Commander.ProcessIncomingCommand | turret.py:176-193 | exactly the codes `Written` gives for the resolved command are appended, and the process exits exactly when that command resolves to 0 |
| Turret.Session.constructor | turret.py:196-197 | every connection holds the given commander, with no replies and not closed |
| Turret.Session.SendMessage | turret.py:170-173 | the reply is appended and nothing else changes |
| Turret.Session.Close | turret.py:174 | the connection is closed and its replies are unchanged |
| Turret.Session.HandleMessage | turret.py:199-205 | while the shared state is validated a message is a command and replies nothing; otherwise it is a password check that writes nothing |
| Turret.Session.HandleClose | turret.py:210-212 | closing any connection resets the shared state to the bypass value |
| Turret.ShippedSettingsSkipLogin | turret.py:151-159 | with the shipped `config.py` the commander starts out validated, so a first message is a command, and the serial port is unused |
| Turret.LoginOnOneConnectionValidatesAll | turret.py:197-205 | after a login on one connection, a command on another connection is sent without a password |
| Turret.CloseOnOneConnectionResetsAll | turret.py:197-212 | with the bypass off, a close on one connection makes the next message of another a failed password, which sends nothing and closes it |
| TurretManager.ConstantsMatchConfigTable | turret-manager.py:30-40 | the `CMD_*` constants equal the `SERIAL_CMD` table of `turretManagerConfig.py` entry by entry |
| TurretManager.Resolve | turret-manager.py:270-286 | only a command with a speed prefix can raise, and any other command that is sent sends one of the four exact codes; `UnrecognizedExactly`, `ExactPhrases` and `SpeedDecimal` pin down the rest |
| TurretManager.SpeedFrom | turret-manager.py:280-284 | a speed command is never silently ignored, and it raises IndexError exactly when it has fewer than three tokens; `SpeedFromArgument` gives the value |
| TurretManager.ExactPhrases | turret-manager.py:270-278 | "FIRE", "CEASE FIRE", "SAFETY ON" and "SAFETY OFF" send 0x21, 0x22, 0x23 and 0x24 |
| TurretManager.ExactPhrasesMatchTable | turret-manager.py:271-278 | the exact phrases send the codes the shipped `IN_CMD` and `SERIAL_CMD` give them |
| TurretManager.UnrecognizedExactly | turret-manager.py:271-286 | a command is ignored exactly when it is none of the four phrases and starts with neither speed prefix |
| TurretManager.RotatePrefix | turret-manager.py:279-281 | any command starting with "ROTATE SPEED" takes the rotate branch |
| TurretManager.PitchPrefix | turret-manager.py:282-284 | any command starting with "PITCH SPEED" takes the pitch branch |
| TurretManager.SpeedFromArgument | turret-manager.py:280-281 | a two-token prefix, a space and a token `int()` reads as n give the zero code plus n |
| TurretManager.SpeedArgument | turret-manager.py:279-284 | a speed prefix, a space and a space-free token read as n send 0x30 + n or 0x45 + n |
| TurretManager.SpeedDecimal | turret-manager.py:279-284 | a speed prefix followed by `str(n)` sends 0x30 + n or 0x45 + n for every integer n, e.g. "PITCH SPEED 10" sends 0x4F |
| TurretManager.LongerPrefixRotates | turret-manager.py:279-281 | only the prefix is matched: "ROTATE SPEED" with letters attached, then a speed, still rotates |
| TurretManager.ExtendedExactPhraseIgnored | turret-manager.py:271-286 | a strict extension of "CEASE FIRE", "SAFETY ON" or "SAFETY OFF" matches nothing |
| TurretManager.MissingSpeedRaises | turret-manager.py:280-283 | a speed prefix with fewer than three tokens raises IndexError |
| TurretManager.BadSpeedRaises | turret-manager.py:281-284 | a speed prefix whose third token `int()` rejects raises ValueError |
| TurretManager.BareSpeedPhraseRaises | turret-manager.py:279-284 | the bare phrases "ROTATE SPEED" and "PITCH SPEED" raise IndexError |
| TurretManager.CanonicalNamesIgnored | turret-manager.py:270-286 | every canonical name but "FIRE" is ignored, so REBOOT and the MAX codes cannot be requested |
| TurretManager.DispatchedValues | turret-manager.py:270-286 | every value sent is an exact-phrase code or a zero code plus a parsed speed |
| TurretManager.Written | turret-manager.py:145-148 | at most one value is written: the value itself, whenever the port is in use, 0 included |
| TurretManager.SerialLink.constructor | turret-manager.py:42 | the port starts with nothing written |
| TurretManager.SerialLink.CommandTurret | turret-manager.py:145-148 | the value is appended to the written codes exactly when the port is in use |
| TurretManager.TestTurretCommands | turret-manager.py:151-200 | the script writes exactly 0x24, 0x23, 0x24, 0x21, 0x22, 0x29, 0x33, 0x4F, 0x44, 0x33, 0x21, 0x22, 0x23 in order, or nothing with the port unused |
| TurretManager.TestScriptIsSafe | turret-manager.py:151-200 | every FIRE in the script is directly followed by STOP_FIRE, the script ends with SAFETY_ON, it never sends REBOOT, every code lies in 0x21..0x4F, and the rotations stay in 0x26..0x3A and the pitches in 0x3B..0x4F |
| TurretManager.CommandServer.constructor | turret-manager.py:246-253 | a connection starts with the validation state at the bypass value, no replies and not closed |
| TurretManager.CommandServer.ProcessIncomingCommand | turret-manager.py:270-286 | exactly the codes `Written` gives for the resolved command are appended |
| TurretManager.CommandServer.ValidateClient | turret-manager.py:288-298 | the right password validates this connection and replies 'Login successful'; a wrong one replies 'Invalid password.', closes, and leaves the state unchanged |
| TurretManager.CommandServer.HandleMessage | turret-manager.py:255-261 | on a validated connection a message is a command and replies nothing; otherwise it is a password check that writes nothing |
| TurretManager.CommandServer.HandleClose | turret-manager.py:266-268 | this connection's state returns to the bypass value |
| TurretManager.ShippedSettingsSkipLogin | turret-manager.py:246-253 | with the shipped `turretManagerConfig.py` a connection starts out validated, with the serial port unused |
| TurretManager.LoginIsPerConnection | turret-manager.py:253-292 | a login on one connection leaves another unvalidated, and its next message is a password check that writes nothing |
| Variants.TablesDifferOnlyByShutdown | config.py:14-38 | the manager's shipped tables are those of `config.py` without the shutdown entries |
| Variants.AgreeOnExactPhrases | turret-manager.py:271-278 | both relays send the same code for the four exact phrases |
| Variants.AgreeOnSpeedCommands | turret-manager.py:279-284 | both relays give the same value for a speed phrase followed by `str(n)`, and that value is 0 exactly at n = -0x30 or -0x45 |
| Variants.DifferOnCanonicalNames | turret.py:187-188 | a canonical name other than "FIRE" is sent by `turret.py` and ignored by the manager |
| Variants.DifferOnStopServer | config.py:37 | "STOP SERVER" resolves to the shutdown value in `turret.py` and is ignored by the manager |
| Variants.DifferOnBareSpeedPhrases | turret-manager.py:280-283 | a bare speed phrase sends the zero-speed code in `turret.py` and raises IndexError in the manager |
| Variants.DifferOnLongerPrefix | turret-manager.py:279 | "ROTATE SPEED" with letters attached and a speed is ignored by `turret.py` and rotates in the manager |
| Variants.DifferOnSpeedAfterExactPhrase | turret.py:181-193 | a speed after "CEASE FIRE", "SAFETY ON" or "SAFETY OFF" shifts the code in `turret.py`, so "CEASE FIRE -1" fires, and is ignored by the manager |

## Left out

- Opening the serial port and its background read loop (`establish_connection_to_turret`, `serial_logging_thread`) are I/O on a separate thread. Only `write` is modelled, as an append to `written`.
- `chr(command).encode()` is not modelled. It is UTF-8 encoding in the library: a value in 0x80..0x7FF becomes two bytes, one in 0x800..0xFFFF three, and one above that four, and a negative value, one above 0x10FFFF, or a surrogate in 0xD800..0xDFFF raises. The model records the integer. Neither relay range-checks it.
- The WebSocket and SSL server (`init_incoming_commands_server`, `serveforever`) is the library's transport. `sendMessage` and `close` are modelled as an append to `replies` and a `closed` flag. The model does not capture the library dropping messages after a close.
- Exceptions raised inside `handleMessage` go to the WebSocket library. The model stops at the `Raised` outcome and changes nothing.
- The manager's `self.close(self)` passes the connection object as the close status. That argument goes to the library and is not modelled.
- `cleanup`, `sys.exit`, `argparse`, the sounds, colorama output and every `print` are process plumbing. Process exit in `turret.py` is the `exiting` flag, which `CommandTurret`, every `Commander` operation, and `Session.HandleMessage` and `Session.HandleClose` require to be unset.
- The `sleep` pauses of `test_turret_commands` only affect timing. Only the order of the codes is modelled.
- Concurrent connections racing on the shared commander or serial port are not modelled. Messages are a sequential stream of method calls.
- Configuration fields other than `noTurret`, `validationBypass`, `password` and the two tables are not modelled: baud rate, port names, certificate paths and sound file.
- PyStr.ParseInt accepts ASCII digits only. Python's `int()` also accepts other Unicode decimal digits and refuses strings longer than 4300 digits; neither is modelled.
