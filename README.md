# Fan controller line protocol, modelled in Dafny

This project models the core of the desktop fan-controller application. That application talks to a
four-channel fan controller board over a serial line in a comma-separated ASCII protocol.

- The board sends `FCD` records: a status of 4 temperatures, 4 outputs and 8 RPM counters.
- The board sends `FCR` records: a configuration of 4 sensor types and 4 fan channels of 7 numbers each.
- The board sends `FCA` to acknowledge an applied configuration.
- The board sends `ERR:<text>` for an error.
- The host sends `FCS,<32 numbers>` to apply a configuration and `FCQ` to ask for it.
- Records end with CR-LF. A record may start with one stray NUL byte.

The model has five modules, one per file.

- `GoLib` (`golib.dfy`) models the Go library pieces the code relies on:
  - `int8`/`int16` and their wrap-around casts;
  - `strconv.Atoi`;
  - `fmt`'s `%d`;
  - `strings.Split`, `HasPrefix`, `TrimPrefix` and `Trim(s, " ")`;
  - a `Join` of texts with a separator. The code itself never calls `strings.Join`: `configToStr` prints its numbers with a comma-separated `%d` format in `fmt.Sprintf` (config.go:223), and the model writes that format as the `%d` texts joined with commas;
  - the `[]byte` ↔ `string` conversions.
- `Util` (`util.dfy`) models util.go. It covers the text → `int8`/`int16` conversions and the flag encoding.
- `FrameCodec` (`config.dfy`) models config.go:
  - the record types;
  - the tag matching;
  - `parseData`, as a spec function `Decode` and a loop method `ParseData` proved equal to it;
  - `configToStr`;
  - the round trips between them.
- `Session` (`serial.dfy`) models serial.go as a `Serial` class whose methods update the stored status, the stored configuration, the port and the stop flag.
  - The physical port is a `Port` object driven by a script of read results. A read past the end of the script is a timeout: no bytes, `io.EOF`.
  - The three-second handshake budget is a number of read attempts (`fuel`).
  - The read loop is bounded by `fuel` iterations.
  - Each GUI call and each `go f()` becomes an `Event` appended to a log.
- `Gui` (`gui.dfy`) models the checkable helpers of gui.go:
  - the combobox index conversions;
  - the spin box clamps;
  - the conversion between a fan page's widgets and a `FanConfig`;
  - the rebuild of the remembered port list in `UpdateConfig`.

Points where the code's behaviour is easy to misread:

- An `ERR` message is *not* trimmed by `parseData` (config.go:210). Only `strings.TrimPrefix(.., "ERR:")` is applied. The spaces are looked at only by the read loop's blank check (serial.go:120).
- A stray NUL is removed only from a record that is exactly one NUL (config.go:124). Any other leading NUL is accepted by `checkCommand`/`checkCommandPrefix` and stays in the field. A NUL before `ERR:` therefore stays in the message: `TrimPrefix` does not match, and the message is `"\x00ERR:..."`. `FrameCodec.NulPrefixedRecord` states both halves.
- `configToStr` produces the command without the line ending. `ApplyConfig` appends `"\r\n"` (serial.go:62).
- `FCS` and `FCR` use the same layout, but `parseData` knows only `FCR`. The encode/decode round trip therefore holds with the tag replaced (`FrameCodec.ConfigRoundTrip`).
- `checkPort` does not store the status it receives (serial.go:147-149).

## Model

| member | source | states |
|---|---|---|
| GoLib.BytesToString | config.go:120 | `string(d)` has one character per byte, with that byte's code |
| GoLib.StringToBytes | serial.go:67 | `[]byte(s)` has one byte per character, the character's code modulo 256 |
| GoLib.BytesStringRoundTrip | config.go:120 | for a text of byte-sized characters, converting to bytes and back gives the text |
| GoLib.Atoi | util.go:32 | `strconv.Atoi` succeeds only with a sign or digit first, and only within the 64-bit range |
| GoLib.AtoiIntToStr | config.go:223 | every 64-bit value printed with `%d` is parsed back by `Atoi` to the same value |
| GoLib.IntToStrChars | config.go:223 | `%d` output is non-empty and holds only digits and `-` |
| GoLib.TrimPrefix | config.go:210 | with the prefix, the text is prefix + result; without it, the text is unchanged |
| GoLib.TrimSpacesEmpty | serial.go:120 | `strings.Trim(m, " ")` is empty exactly when `m` holds only spaces |
| GoLib.JoinSplit | config.go:121-127 | joining the pieces of `strings.Split` with the separator gives the text back |
| GoLib.SplitSepHead | config.go:121 | a text that starts with the separator splits into an empty piece followed by the pieces of the rest |
| GoLib.SplitJoin | config.go:127 | splitting a join of comma-free pieces on a one-character separator gives the pieces back |
| GoLib.SplitAtSep | config.go:121-127 | a piece free of the separator's first character ends at the first separator |
| Util.Wrap8 | util.go:34 | `int8(v)` is congruent to `v` modulo 256 and is `v` itself inside the int8 range |
| Util.Wrap16 | util.go:42 | `int16(v)` is congruent to `v` modulo 65536 and is `v` itself inside the int16 range |
| Util.StrToInt8Wraps | util.go:31-37 | unparsable text gives 0; otherwise the result is the parsed value wrapped into int8, unchanged when it fits |
| Util.StrToInt16Wraps | util.go:39-45 | unparsable text gives 0; otherwise the result is the parsed value wrapped into int16, unchanged when it fits |
| Util.Int8ToBool | util.go:24-29 | true exactly for strictly positive values |
| Util.BoolToInt | util.go:47-53 | false is 0, true is 1, and `Int8ToBool` reads the value back as the flag |
| Util.StrToInt8RoundTrip | util.go:31-37 | every int8 printed with `%d` comes back unchanged |
| Util.StrToInt16RoundTrip | util.go:39-45 | every int16 printed with `%d` comes back unchanged |
| Util.FlagRoundTrip | util.go:24-53 | AllowStopped survives BoolToInt, `%d`, StrToInt8 and Int8ToBool |
| FrameCodec.CheckCommand | config.go:105-110 | for a tag not starting with NUL, the field matches exactly when, after dropping one leading NUL, it equals the tag |
| FrameCodec.CheckCommandPrefix | config.go:112-117 | for a tag not starting with NUL, the field matches exactly when, after dropping one leading NUL, it starts with the tag |
| FrameCodec.PrefixAfterNul | config.go:113 | a field starts with NUL+tag exactly when it starts with NUL and the rest starts with the tag; such a field never starts with the tag itself |
| FrameCodec.FirstFrame | config.go:122-219 | the result is "nothing" exactly when no record decodes; otherwise it is the frame of a record, and every earlier record decodes to nothing |
| FrameCodec.ParseData | config.go:119-220 | the loop that scans the records returns exactly `Decode(d)`, the first-match frame |
| FrameCodec.RecordKinds | config.go:128-216 | each frame kind arises exactly when its tag matches and the field count is 17, 33, 1 or 1 |
| FrameCodec.StatusFieldsOf | config.go:129-157 | a status parsed from 17 fields holds field k+1 as int8 for k < 8 and as int16 for the rest |
| FrameCodec.ConfigLayout | config.go:158-206 | a decoded configuration has 33 fields; the sensor types are fields 1-4 as int8; channel n is fields 5+7n to 11+7n, with AllowStopped true exactly when its field read as int8 is positive, whatever its text |
| FrameCodec.ConfigFieldsOf | config.go:159-205 | a configuration parsed from 33 fields holds the sensor types and each channel's seven values at their wire positions and widths |
| FrameCodec.FanFieldsAt | config.go:166-174 | one channel parsed from 7 fields: power and control as int8, the temperatures as int16, the stop flag as a positive int8, the fan types as int8 |
| FrameCodec.StatusLayout | config.go:129-157 | a decoded status holds field k+1 as int8 for its first 8 numbers and as int16 for the other 8 |
| FrameCodec.ErrorText | config.go:209-215 | an error record starts with ERR after an optional NUL; the message is the record without `ERR:`, or the whole record when that prefix is absent |
| FrameCodec.ConfigToStr | config.go:222-234 | the command starts `FCS,` and its comma-separated fields are the tag followed by the 32 numbers of the layout printed with `%d` |
| FrameCodec.ConfigToStrValues | config.go:222-234 | the command has 33 fields, and field k+1 parses back to the k-th number of the layout |
| FrameCodec.ConfigToStrOneLine | config.go:222-234 | the command holds no CR or LF, and every character is plain ASCII (code below 128) |
| FrameCodec.FanRoundTrip | config.go:166-174 | the 7 printed numbers of a fan channel decode back to the same channel |
| FrameCodec.StatusLineRoundTrip | config.go:129-157 | an FCD record printed from a status decodes to that status |
| FrameCodec.ParseConfigRendered | config.go:158-206 | the 32 printed numbers of a configuration decode back to the same configuration |
| FrameCodec.ConfigRoundTrip | config.go:158-234 | the FCS command with its tag replaced by FCR decodes to the configuration it was printed from, for every configuration |
| FrameCodec.NulTag | config.go:105-117 | a NUL before the tag field changes no decoding, except that an error message keeps the NUL |
| FrameCodec.NulPrefixedRecord | config.go:122-216 | a NUL before a record changes no decoding, except that an error message keeps the NUL |
| FrameCodec.NulPrefixedBuffer | config.go:119-220 | a NUL at the start of a buffer whose first record is not an error changes nothing |
| FrameCodec.SplitAtCRLF | config.go:121 | a text with no CR-LF inside it is one whole record when CR-LF follows it |
| FrameCodec.EmptyRecord | config.go:121-219 | the empty record after a final CR-LF decodes to no frame |
| FrameCodec.DecodeLine | config.go:119-220 | a single line with no CR-LF inside it, followed by CR-LF, decodes to that line's frame, and to no frame when the line is not recognised |
| FrameCodec.ErrorLine | config.go:209-215 | `ERR:<msg>` followed by CR-LF, for a comma-free message with no CR-LF inside, decodes to an error whose message is exactly `<msg>` (not trimmed) |
| FrameCodec.ConfigWireRoundTrip | config.go:119-234 | the bytes of the configuration command, with an FCR tag and CR-LF, decode to the configuration |
| Session.Port.Read | serial.go:88 | a read delivers the next scripted result, or a timeout once the script has run out |
| Session.Port.Close | serial.go:55 | closing counts one more close and leaves the reads, the write log and the write error as they were |
| Session.Port.Write | serial.go:67 | a write either fails with the port's error or appends the bytes to the written log |
| Session.ErrorShownIffNotBlank | serial.go:119-123 | a device error is shown exactly when it has a character other than a space; an all-space error causes no GUI call |
| Session.QueryOnlyAfterAck | serial.go:112-118 | the read loop asks for the configuration again exactly after an apply acknowledgement |
| Session.HandshakeLength | serial.go:129-153 | the handshake never makes more reads than its budget |
| Session.DropVerdict | serial.go:138-147 | the read taken after k earlier reads is the k-th scripted one, and it leaves the reads after it |
| Session.HandshakeOutcome | serial.go:128-154 | the first read within the budget that is an I/O error or a status frame decides: failure with that error, or success. The handshake stops after that read |
| Session.HandshakeTimeout | serial.go:130-153 | when no read within the budget fails or carries a status, the handshake fails with "Couldn't got fan controller status" after using the whole budget |
| Session.SilentPortFails | serial.go:128-154 | a port that never fails and never sends a status never passes the handshake, whatever the budget |
| Session.Serial.constructor | serial.go:27-31 | a new session has no port, no status, no config and the stop flag down |
| Session.Serial.GetConfig | serial.go:33-38 | the stored configuration, or the zero configuration when none is stored |
| Session.Serial.GetStatus | serial.go:40-45 | the stored status, or the zero status when none is stored |
| Session.Serial.StopRead | serial.go:47-59 | raises the stop flag, forgets status and config, closes the port once if there is one, and drops it |
| Session.Serial.ApplyConfig | serial.go:61-77 | writes exactly `configToStr(c) + "\r\n"`; returns false exactly when the write fails, and then shows the error |
| Session.Serial.QueryConfig | serial.go:156-171 | writes exactly `FCQ\r\n`; returns false exactly when the write fails, and then shows the error |
| Session.Serial.Dispatch | serial.go:101-123 | a status frame replaces the status, a config frame replaces the config, the other value stays, and the GUI calls are those of the frame kind |
| Session.Serial.ReadPortStep | serial.go:81-124 | with the stop flag up, the loop ends and nothing changes, the port included. A failed read shows the error, closes the main window and stops the session. Otherwise an empty read changes nothing and a non-empty one is decoded and dispatched. No branch writes to the port or changes its write error |
| Session.Serial.ReadPort | serial.go:79-126 | the loop ends early exactly when one of the reads within the budget fails. The session is then stopped and its old port closed exactly once, and the last two GUI calls are the error of the first failing read and the closing of the main window. Otherwise the port is kept and not closed. Nothing is written to the port |
| Session.Serial.HandshakeRead | serial.go:137-150 | one read of the handshake loop takes the next scripted read and classifies it: failure with an I/O error, success with a status frame, undecided otherwise; nothing is written or closed |
| Session.Serial.CheckPort | serial.go:128-154 | the result is `Handshake` of the scripted reads (first decisive read wins, timeout text otherwise), exactly `HandshakeLength` reads are consumed, and the port's writes and close count are untouched |
| Session.Serial.ConnectToController | serial.go:173-198 | an open failure shows the error and returns false with no port. A failed handshake closes the port, drops it, shows the error and returns false. Success keeps the port, refreshes both pages, records the port name and starts the query and the read loop |
| Session.StopReadTwice | serial.go:47-59 | stopping twice closes the port exactly once |
| Gui.SensorTypeToIndex | gui.go:644-649 | a valid combobox index; a known sensor type selects its own entry, anything else the first |
| Gui.FanTypeToIndex | gui.go:651-656 | a valid combobox index; a known fan type selects its own entry, anything else the first |
| Gui.ControlToIndex | gui.go:658-663 | a valid combobox index; a known control source selects its own entry, anything else the first |
| Gui.CodesSelectTheirEntries | gui.go:332-374 | the protocol's sensor-type, fan-type and control codes select the combobox entries that name them |
| Gui.PowerToInt | gui.go:665-673 | the result lies in [0,100], is the power itself inside that range, and is the nearest point of the range |
| Gui.TempToInt | gui.go:675-683 | the result lies in [0,150], is the temperature itself inside that range, and is the nearest point of the range |
| Gui.ShowFanConfig | gui.go:592-600 | putting any fan configuration on a page gives every widget a value it can hold, with the temperature spin boxes at the default range [0,150] |
| Gui.GetFanConfig | gui.go:602-612 | reading a page whose widgets hold legal values gives a configuration the page can show unchanged |
| Gui.PageRoundTrip | gui.go:592-612 | reading a page and showing the result leaves every widget as it was |
| Gui.FanConfigRoundTrip | gui.go:592-612 | a configuration within the widget ranges survives being shown and read back |
| Gui.ShowClamps | gui.go:592-612 | showing any configuration, reading it back and showing it again changes no widget |
| Gui.OthersAppend | gui.go:94-100 | dropping the connected port from a list commutes with concatenation, so the other entries keep their order |
| Gui.OthersMultiset | gui.go:94-100 | the other entries are the list's entries with every copy of the connected port removed, as a multiset |
| Gui.OthersWithoutName | gui.go:94-100 | a list without the connected port is kept as it is |
| Gui.OthersCounts | gui.go:94-100 | every copy of the connected port is dropped, every other entry keeps its count, and the list is unchanged exactly when the port was absent |
| Gui.RebuildPortsShape | gui.go:90-101 | the new list starts with the port, holds it exactly once, keeps every other entry's count, and is one longer exactly when the port was new |
| Gui.RebuildPortsIdempotent | gui.go:92-101 | rebuilding twice with the same port gives the same list as once |
| Gui.AppGui.UpdateConfig | gui.go:90-104 | stores the rebuilt list; `notExist` is true exactly when the port was not remembered, and only then is it appended to the combobox |

## Left out

- `ToJSON` and `ToPrettyJSON` (util.go:8-22) are thin wrappers over `encoding/json`.
- The real serial port (`tarm/serial`: `OpenPort`, 9600 baud, 100 ms read timeout) is replaced by a scripted `Session.Port`. `OpenPort`'s outcome is a parameter of `ConnectToController`.
- Session.Port.Read: one scripted result is what one `Read` delivered. The 256-byte buffer bound is not modelled. Neither is a read that returns data together with a non-EOF error, beyond discarding the data as the code does.
- The `sync.Mutex` around the port is not modelled. The goroutines (`go ser.queryConfig()`, `go ser.readPort()`) are not modelled either; they and their unsynchronised field accesses are run sequentially. A start is logged as an event, and `QueryConfig` and `ReadPort` are separate methods.
- Session.Serial.CheckPort: wall-clock time is replaced by a number of read attempts (`fuel`). How many reads fit in three seconds is not modelled. The specification `Handshake` is stated over the verdict of each read (failed, status, undecided) rather than over the decoded frames themselves.
- Session.Serial.ReadPort: the loop runs for at most `fuel` iterations. Its contract states when it ends, the stopped state, the single close and the two final GUI calls on exit. It does not state the stored status and configuration or the GUI calls of the iterations before; `ReadPortStep` states those per iteration.
- `DEBUG_INFO` logging and `log.Printf` are left out.
- GUI rendering is left out: the `andlabs/ui` and `systray` widgets, windows, menus and message boxes. Each call into the GUI is an `Event`. `CloseMainWindow(true)`'s call of `StopRead` is modelled. Showing the port selection window is not.
- The rest of `AppGUI.UpdateConfig` (gui.go:105-106) is left out: reading the auto-start checkbox and writing the application configuration file are I/O.
- `tempToPerc` and `rpmToPerc` (gui.go:630-642) compute with `float64` division.
- appconfig.go (TOML configuration file I/O) is not part of this model. The temperature spin boxes range up to the configured `MaxTemp` (gui.go:344-345), which `readAppConfig` sets to `MAX_TEMP` (150) and may then overwrite from the file. The model fixes it at 150. `tempToInt`'s own bound of 150 (gui.go:676-681) is a separate constant, `Gui.TempLimit`.
- Gui.ShowFanConfig: "every widget holds a legal value" is proved for the default `MaxTemp` of 150 only. A `MaxTemp` read from the configuration file is not modelled.
- Gui.PageRoundTrip: the round trip is proved for the default `MaxTemp` of 150 only. With a smaller configured `MaxTemp`, the spin boxes would clamp what `tempToInt` gives, and that is not modelled.
- fancontroller.go (process entry and wiring) is not part of this model.
- Util.StrToInt8: its contract is stated in the lemmas `Util.StrToInt8Wraps` and `Util.StrToInt8RoundTrip` rather than as `ensures` on the function.
- Util.StrToInt16: its contract is stated in the lemmas `Util.StrToInt16Wraps` and `Util.StrToInt16RoundTrip` rather than as `ensures` on the function.
