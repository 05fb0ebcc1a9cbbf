# JDY-31 Bluetooth driver and token bucket, in Dafny

This project models two parts of the Arduino library for the JDY-31 Bluetooth
serial module and proves properties of the model.

The first part is the AT-command driver in `bluetooth.cpp`. It models:

- the command pin that puts the module into command mode;
- command framing with `\r\n`;
- the highest-first baud-rate probe;
- the `+CONNECTING<<XX:XX:XX:XX:XX:XX` notification and its uppercase hex
  decoder;
- the NUL-terminating line reader;
- the `AT+NAME`/`AT+PIN` settings, which reset the module only on `+OK`;
- reset, factory reset and disconnect.

The second part is the `uint32_t` token bucket in `bucket.hpp`.

The driver's class inherits `SoftwareSerial`, so the model's class
`Jdy31.Bluetooth` also stands for the port. It keeps the following
state:

- the command-pin level;
- the current rate and read timeout;
- a log of effects (pin writes, bytes written, numbers printed, port
  reopenings, timeouts, flushes and delays);
- `inbox`, the bytes the module sends, which reads consume;
- `respondsAt` and `probeReply`, the rates at which the module answers
  `AT+VERSION` and what it answers;
- `client_mac[6]` and the shared `BUFFER[129]`, as arrays.

`Valid()` is the class invariant that every operation keeps. It says three
things. Between operations the command pin is LOW. Every byte the driver
ever sent went out while the pin was HIGH, so the module never takes a
command for data. The cell `BUFFER[128]` also always holds a NUL.

The bucket is the class `TokenBucket.Bucket`. Each `millis()` reading is a
parameter. `request_token` takes the sequence of readings its calls
return. `Arrives` says the busy wait ends within those readings, and
`Spins` counts the refills it performs.

Modules and files:

| File | Modules | What it holds |
|---|---|---|
| `ctypes.dfy` | `CTypes` | `uint8_t` stores, bitwise OR, and `uint32_t` add and subtract |
| `hex.dfy` | `HexCodec` | `parse_hex_nibble` |
| `mac.dfy` | `MacAddress` | the notification format and its decoding |
| `cstrings.dfy` | `CStrings`, `Decimal` | `strncpy`, `strncat`, the C string a buffer holds, and decimal printing |
| `serial.dfy` | `Serial` | the effect log, command mode, `readBytesUntil` and `readLine`'s store |
| `bluetooth.dfy` | `Jdy31` | the driver |
| `bucket.dfy` | `TokenBucket` | the bucket |

Facts about the code that shape the model:

- A new bucket holds 0 tokens (bucket.hpp:7, 25-26).
  - So the first `request_token` waits a whole refill interval.
  - So five requests in a row on a fresh bucket do not all return at
    once (`EmptyBucketWaits`).
- `_refill_tokens` does not update `_last_request_time` (bucket.hpp:12-20). Only `request_token` does (bucket.hpp:36).
- The driver has no tracker of unsolicited `+CONNECTING`/`CONNECTED`/`+DISC` lines. `handlNewConnection` reads the notification only when called.
- The driver has no `AT+BAUD<n>` setter. Rates are set only with `AT+UART=` (bluetooth.cpp:80-102).

## Model

| member | source | states |
|---|---|---|
| CTypes.Wrap | bluetooth.cpp:31 | a store into `uint8_t` keeps the value mod 256 |
| CTypes.Add32 | bucket.hpp:19 | `uint32_t` addition: the sum, less 2^32 when it does not fit |
| CTypes.Sub32 | bucket.hpp:15 | `uint32_t` subtraction: the difference, plus 2^32 when it is negative |
| CTypes.Add32Mod | bucket.hpp:19 | `uint32_t` addition is the sum mod 2^32 |
| CTypes.Sub32Mod | bucket.hpp:15 | `uint32_t` subtraction is the difference mod 2^32, so elapsed time survives a clock wrap |
| CTypes.Or | bluetooth.cpp:181 | the OR of two bytes is a byte no smaller than either operand |
| CTypes.OrNibbles | bluetooth.cpp:180-181 | a high nibble shifted left four, OR-ed with a low nibble, is 16*high + low |
| HexCodec.ByteOf | bluetooth.cpp:31 | the `(uint8_t)` cast of a one-byte `char` |
| HexCodec.ParseHexNibble | bluetooth.cpp:18-36 | every uppercase hex digit decodes to its value 0..15 |
| HexCodec.ParseHexDigit | bluetooth.cpp:18-36 | decoding the digit the module prints for a nibble gives the nibble back |
| HexCodec.NibbleBelow16Iff | bluetooth.cpp:31-35 | a one-byte character decodes below 16 exactly when it lies between '0' and 'F', so seven non-digits alias 3..9 |
| HexCodec.NonHexInputDecodes | bluetooth.cpp:31-35 | malformed input is not rejected: '<' decodes like '5', and 'a' and 'f' wrap to 42 and 47 |
| MacAddress.MacByte | bluetooth.cpp:180-181 | one MAC byte: the high nibble shifted left four into a `uint8_t`, the low nibble OR-ed in |
| MacAddress.MacByteValue | bluetooth.cpp:180-181 | one MAC byte built from two uppercase digits is the two-digit hex number |
| MacAddress.DecodeMac | bluetooth.cpp:173-184 | six bytes, byte k built from the characters at 13+3k and 14+3k, all below offset 30 |
| MacAddress.DecodeMacReadsDigitsOnly | bluetooth.cpp:179-184 | the decoded address depends only on the first 30 characters |
| MacAddress.DecodeMacValue | bluetooth.cpp:179-184 | with well-formed digits, byte k is 16*hex(line[13+3k]) + hex(line[14+3k]) |
| MacAddress.FormatNotification | bluetooth.cpp:173-177 | the notification of an address is 30 characters and starts with `+CONNECTING<<` |
| MacAddress.FormattedDigits | bluetooth.cpp:173-177 | byte k's two digits sit at 13+3k and 14+3k, followed by a colon |
| MacAddress.DecodeFormatRoundTrip | bluetooth.cpp:173-184 | decoding the notification of any address gives that address back |
| MacAddress.ExampleFormatted | bluetooth.cpp:173-177 | the notification of DE:AD:BE:EF:00:11 is `+CONNECTING<<DE:AD:BE:EF:00:11` |
| MacAddress.DecodeExample | bluetooth.cpp:173-184 | that line decodes to DE AD BE EF 00 11 |
| CStrings.CString | bluetooth.cpp:267 | what `strcmp` sees: the prefix before the first NUL, which contains no NUL |
| CStrings.CStringStops | bluetooth.cpp:267 | whatever follows a NUL does not change the C string |
| CStrings.CStringAgrees | bluetooth.cpp:267 | buffers that agree up to and including a NUL hold the same C string |
| CStrings.CStringOfTerminated | bluetooth.cpp:267 | a NUL-free text followed by a NUL reads back as itself |
| CStrings.NCopied | bluetooth.cpp:258 | `strncpy` fills exactly n cells: the source, then NUL padding |
| CStrings.StrNCpy | bluetooth.cpp:258 | `strncpy` writes the padded copy into the first n cells and nothing past them |
| CStrings.StrNCat | bluetooth.cpp:259 | `strncat` puts at most n characters after the old C string, then a NUL; the C string grows by exactly them |
| CStrings.Concatenated | bluetooth.cpp:259 | a buffer changed cell by cell as `strncat` changes it equals the concatenation |
| Decimal.Digits | bluetooth.cpp:85-89 | printed digits are at least one decimal digit, with no leading zero |
| Decimal.DigitsRoundTrip | bluetooth.cpp:85-89 | the digits of n denote n |
| Decimal.Text | bluetooth.cpp:85 | a printed `long` starts with '-' exactly when it is negative, then digits |
| Decimal.TextRoundTrip | bluetooth.cpp:85-89 | the printed text of a number denotes that number |
| Serial.Written | bluetooth.cpp:84-91 | the byte stream a log of effects sends to the module, writes and prints in order |
| Serial.LevelAfter | bluetooth.cpp:204-214 | the command-pin level after a log: the last pin write, or the level before |
| Serial.InCommandMode | bluetooth.cpp:204-230 | every byte of a log went out while the command pin was HIGH |
| Serial.WrittenAppend | bluetooth.cpp:84-91 | the bytes written by two runs of effects are the concatenation of each run's bytes |
| Serial.InCommandModeAppend | bluetooth.cpp:204-214 | pin level and command mode compose over concatenated logs |
| Serial.NextLine | bluetooth.cpp:194 | `readBytesUntil('\n')`: at most `length` bytes, a prefix of the input without LF; the LF is consumed only when met in time |
| Serial.LineStored | bluetooth.cpp:192-199 | `readLine` stores the line, then a NUL only when the line is shorter than `length`; nothing at or past `length` changes |
| Serial.LineStoredTerminated | bluetooth.cpp:195-196 | after `readLine` into `BUFFER`, the line is followed by a NUL |
| Serial.LineStoredCString | bluetooth.cpp:262-267 | the C string compared after `readLine` is the line read, whatever the buffer held before |
| Jdy31.CommandFrame | bluetooth.cpp:220-230 | `sendCommand`'s effects: pin HIGH and settle, the command, CRLF, the timeout, pin LOW and settle |
| Jdy31.ResetFrame | bluetooth.cpp:292-299 | `reset`'s effects: the `AT+RESET` frame, then the 100 ms wait |
| Jdy31.SettingFrame | bluetooth.cpp:256-290 | `setName`/`setPin`'s effects: the setting frame, then a reset frame exactly when accepted |
| Jdy31.UartCommand | bluetooth.cpp:84-91 | the text `AT+UART=<baud>,<stop>,<parity>` |
| Jdy31.UartWrites | bluetooth.cpp:84-91 | the seven writes and prints of `setBaud`, in order |
| Jdy31.UartFrame | bluetooth.cpp:80-102 | `setBaud`'s effects: pin HIGH and settle, the writes, pin LOW without settle, reopen, 1000 ms wait |
| Jdy31.ProbeFrame | bluetooth.cpp:124-133 | one probe's effects: reopen at the rate, timeout 100, flush, `AT+VERSION` CRLF, 10 ms wait |
| Jdy31.SearchFrame | bluetooth.cpp:118-143 | `findBaud`'s effects: the probes between raising and dropping the pin |
| Jdy31.Resets | bluetooth.cpp:292-299 | how many `AT+RESET` commands a log sends |
| Jdy31.Scan | bluetooth.cpp:112-144 | the probes of the search carry no pin change |
| Jdy31.ScanFindsHighest | bluetooth.cpp:112-144 | the search returns the highest responding rate, or 0 exactly when no rate responds, so the result is in the table or 0 |
| Jdy31.ScanExample | bluetooth.cpp:120-140 | a module answering only at 19200 is found after probing 128000, 115200, 57600 and 38400 in that order |
| Jdy31.AppendCommandMode | bluetooth.cpp:204-230 | logs that keep to command mode and end with the pin LOW stay so when concatenated |
| Jdy31.QuietRun | bluetooth.cpp:204-214 | effects without pin changes keep the level, and are in command mode when the pin is HIGH or nothing is sent |
| Jdy31.Bracketed | bluetooth.cpp:220-230 | raising the pin, sending, and dropping it keeps every byte in command mode and ends with the pin LOW |
| Jdy31.CommandFrameInCommandMode | bluetooth.cpp:220-230 | `sendCommand` sends its bytes only while the pin is HIGH and leaves it LOW |
| Jdy31.ResetFrameInCommandMode | bluetooth.cpp:292-299 | so does `reset` |
| Jdy31.UartFrameInCommandMode | bluetooth.cpp:80-102 | so does `setBaud` |
| Jdy31.SearchFrameInCommandMode | bluetooth.cpp:118-143 | so does `findBaud`, whichever probe ends it |
| Jdy31.WrittenQuiet | bluetooth.cpp:204-214 | effects that send nothing put no bytes on the wire |
| Jdy31.WrittenOne | bluetooth.cpp:225-226 | one effect puts its own bytes on the wire |
| Jdy31.WrittenCommandFrame | bluetooth.cpp:220-230 | `sendCommand` puts exactly the command followed by CRLF on the wire |
| Jdy31.WrittenSettingFrame | bluetooth.cpp:256-290 | `setName`/`setPin` put the setting command on the wire, then `AT+RESET` exactly when it was accepted |
| Jdy31.WrittenSnoc | bluetooth.cpp:84-91 | one more effect adds its own bytes to the stream |
| Jdy31.WrittenUartWrites | bluetooth.cpp:84-91 | the writes and prints of `setBaud` send exactly `AT+UART=<baud>,<stop>,<parity>` and CRLF, the numbers in decimal |
| Jdy31.WrittenUartFrame | bluetooth.cpp:80-102 | `setBaud` puts exactly `AT+UART=<baud>,<stop>,<parity>` and CRLF on the wire |
| Jdy31.ResetsAppend | bluetooth.cpp:292-299 | the resets in two logs add up |
| Jdy31.ResetsQuiet | bluetooth.cpp:292-299 | effects that send nothing send no reset |
| Jdy31.ResetsCommandFrame | bluetooth.cpp:220-230 | one command frame sends one reset exactly when the command is `AT+RESET` |
| Jdy31.SettingResetsOnce | bluetooth.cpp:267-271 | an accepted setting resets once, a refused one never |
| Jdy31.Padded | bluetooth.cpp:258 | the buffer of a short text: the text, then NULs up to all 129 cells |
| Jdy31.NCopiedPadded | bluetooth.cpp:258 | `strncpy` of a short string into all 128 cells, with the NUL cell after them, is the padded text |
| Jdy31.PaddedCString | bluetooth.cpp:259 | a padded NUL-free text reads back as itself |
| Jdy31.PaddedAppend | bluetooth.cpp:259 | appending after a padded prefix as `strncat` does gives the padded concatenation |
| Jdy31.Bluetooth.Valid | bluetooth.cpp:204-230 | the class invariant: pin LOW, every byte sent in command mode, `BUFFER[128]` NUL |
| Jdy31.Bluetooth.constructor | bluetooth.cpp:42-56 | the pins as given, `client_mac` and `BUFFER` all zero, the stream's default 1000 ms timeout, nothing sent, the pin LOW, the port not yet opened (rate 0) |
| Jdy31.Bluetooth.Emit | bluetooth.cpp:124-133 | one effect on the port is appended to the log; bytes only with the pin HIGH |
| Jdy31.Bluetooth.PrintNumber | bluetooth.cpp:85-89 | `print(long)` logs the number, whose bytes are its decimal text |
| Jdy31.Bluetooth.DigitalWriteCmd | bluetooth.cpp:99 | the pin takes the level, logged |
| Jdy31.Bluetooth.SetCmdPin | bluetooth.cpp:204-214 | the pin takes the level, then the settle delay |
| Jdy31.Bluetooth.SendCommand | bluetooth.cpp:220-230 | the log grows by exactly the command frame, the timeout is set, and the invariant is kept |
| Jdy31.Bluetooth.ReadLine | bluetooth.cpp:192-199 | returns the count of the line read, consumes it from the input, and stores it as `LineStored` |
| Jdy31.Bluetooth.ProbeRead | bluetooth.cpp:135 | the version reply is read into the buffer at a rate the module understands, nothing otherwise |
| Jdy31.Bluetooth.ReadBytes | bluetooth.cpp:93 | up to 128 bytes of the input move into the buffer and leave the input |
| Jdy31.Bluetooth.Probe | bluetooth.cpp:122-135 | one probe: the port reopened at the rate, the timeout 100, the query sent, the reply counted |
| Jdy31.Bluetooth.FindBaud | bluetooth.cpp:109-145 | returns the highest responding rate or 0; logs exactly the probes down to it inside one command-mode window; the pin ends LOW |
| Jdy31.Bluetooth.WriteUartCommand | bluetooth.cpp:84-91 | the writes of `AT+UART=`, the three numbers, the commas and CRLF, in order |
| Jdy31.Bluetooth.Reopen | bluetooth.cpp:99-101 | pin LOW without a settle delay, the port reopened at the new rate, then the 1000 ms wait |
| Jdy31.Bluetooth.SetBaud | bluetooth.cpp:80-102 | logs exactly the UART frame, reopens at the new rate whatever the reply, and NUL-terminates what was read |
| Jdy31.Bluetooth.SetBaudDefaults | bluetooth.cpp:104-107 | `setBaud` with stop bits 0 and parity 0: the UART frame, the input consumed and the buffer NUL-terminated as `setBaud` leaves them |
| Jdy31.Bluetooth.HandleNewConnection | bluetooth.cpp:164-190 | true exactly when the first line has at least 30 bytes; then `client_mac` is the decoded address and one more line is consumed; otherwise `client_mac` is unchanged |
| Jdy31.Bluetooth.DecodeClientMac | bluetooth.cpp:178-184 | the stride-3 loop fills `client_mac` with the decoded address |
| Jdy31.Bluetooth.Reset | bluetooth.cpp:292-299 | sends `AT+RESET` in command mode, consumes one reply line, then waits |
| Jdy31.Bluetooth.ResetFactory | bluetooth.cpp:301-308 | sends `AT+DEFAULT` in command mode, consumes one reply line, then waits |
| Jdy31.Bluetooth.Disconnect | bluetooth.cpp:310-314 | sends `AT+DISC` in command mode and consumes one reply line |
| Jdy31.Bluetooth.Query | bluetooth.cpp:232-254 | a query in command mode, its reply line stored in the caller's buffer |
| Jdy31.Bluetooth.GetVersion | bluetooth.cpp:232-236 | `AT+VERSION` in command mode, the 5000 ms timeout, its reply line stored in the caller's buffer |
| Jdy31.Bluetooth.GetBauds | bluetooth.cpp:238-242 | `AT+BAUD` in command mode, the 5000 ms timeout, its reply line stored in the caller's buffer |
| Jdy31.Bluetooth.GetName | bluetooth.cpp:244-248 | `AT+NAME` in command mode, the 5000 ms timeout, its reply line stored in the caller's buffer |
| Jdy31.Bluetooth.GetPin | bluetooth.cpp:250-254 | `AT+PIN` in command mode, the 5000 ms timeout, its reply line stored in the caller's buffer |
| Jdy31.Bluetooth.BuildCommand | bluetooth.cpp:258-259 | `strncpy` then `strncat` leave prefix + value in the buffer, NUL-padded |
| Jdy31.Bluetooth.Exchange | bluetooth.cpp:258-267 | sends prefix + value, stores the reply line, and reports whether the buffer's C string is `+OK` |
| Jdy31.Bluetooth.SendSetting | bluetooth.cpp:256-290 | succeeds exactly on a `+OK` reply and only then resets; the log, input and buffer match each outcome |
| Jdy31.Bluetooth.SetName | bluetooth.cpp:256-272 | `AT+NAME<name>` with a 1000 ms timeout; true exactly on `+OK`, then a reset; the timeout, input and buffer after each outcome |
| Jdy31.Bluetooth.SetPin | bluetooth.cpp:274-290 | `AT+PIN<pin>` with the 5000 ms timeout; true exactly on `+OK`, then a reset; the timeout, input and buffer after each outcome |
| Jdy31.ReplyAccepted | bluetooth.cpp:267-268 | the comparison accepts a NUL-free reply exactly when it is `+OK` |
| Jdy31.SetNameResets | bluetooth.cpp:256-272 | `setName` sends exactly one `AT+RESET` when it succeeds and none when it fails |
| Jdy31.SetPinResets | bluetooth.cpp:274-290 | so does `setPin` |
| TokenBucket.Intervals | bucket.hpp:15-17 | the whole intervals in the elapsed time never exceed the elapsed milliseconds, so they fit in `uint32_t` |
| TokenBucket.Refilled | bucket.hpp:12-20 | the count after a refill never exceeds the bucket size |
| TokenBucket.RefillAddsIntervals | bucket.hpp:14-19 | without a wrap of the sum, a refill adds floor(((now - last) mod 2^32) / interval), capped at the size |
| TokenBucket.RefillNeverLowers | bucket.hpp:19 | given the cap and no wrap of the sum, a refill never lowers the count |
| TokenBucket.RefillAfterInterval | bucket.hpp:15-19 | an empty bucket stays empty within an interval, and a non-zero bucket holds a token after a whole interval |
| TokenBucket.RefillSumWraps | bucket.hpp:19 | the `uint32_t` sum can wrap: one token and 2^32-1 one-millisecond intervals refill to 0 |
| TokenBucket.Arrives | bucket.hpp:33-35 | the busy wait ends within the readings: some refill yields a token, with a reading left for the final `millis()` |
| TokenBucket.Spins | bucket.hpp:32-35 | the wait takes at least one refill, leaves a reading for the final `millis()`, and its last refill yields a token |
| TokenBucket.SpinsFirst | bucket.hpp:33-35 | no earlier refill yields a token, so the wait ends at the first reading that can end it |
| TokenBucket.SpinsStep | bucket.hpp:32-35 | one refill either ends the wait or leaves it going on over the remaining readings |
| TokenBucket.ArrivesAfterInterval | bucket.hpp:33-35 | with a non-zero size, and when the first refill's `uint32_t` sum does not wrap, the wait ends once a reading is a whole interval after the last request |
| TokenBucket.EmptyBucketWaits | bucket.hpp:33-35 | an empty bucket never ends the wait while the clock stays within one interval |
| TokenBucket.ZeroSizeNeverArrives | bucket.hpp:19-35 | a bucket of size 0 never ends the wait |
| TokenBucket.Bucket.Valid | bucket.hpp:19 | the class invariant: the count never exceeds the size |
| TokenBucket.Bucket.constructor | bucket.hpp:23 | size as given, the 20 ms default interval, 0 tokens, the last request at construction time |
| TokenBucket.Bucket.WithRefill | bucket.hpp:25-26 | size and interval as given, 0 tokens, the last request at construction time |
| TokenBucket.Bucket.RefillTokens | bucket.hpp:12-20 | the count becomes the refilled count, stays within the size, and the last request time is unchanged |
| TokenBucket.Bucket.Poll | bucket.hpp:34 | one refill of the wait from an empty bucket, tying the new count to the rest of the wait |
| TokenBucket.Bucket.AwaitToken | bucket.hpp:32-35 | the wait takes exactly `Spins` refills and ends with a positive count |
| TokenBucket.Bucket.RequestToken | bucket.hpp:30-38 | after the wait, the last request time is the next reading and the count is the last refill's count minus one, never below zero |

## Left out

- The rates at which the module answers a probe (`respondsAt`) and its reply (`probeReply`) are fixed for the object's life. `SetBaud` does not change them, although a real module answers at its new rate afterwards.
- Serial data is a Dafny `string`. Each character stands for one byte, so the model assumes every character the module sends is below 256.
- Serial timing is not modelled. `delay` calls are logged events, not time. Reads take their bytes from `inbox` without timeouts. The probe reply is fixed per rate by `respondsAt` and `probeReply`.
- The `Serial.print` debug output of `setBaud`, `setName` and `setPin` is left out. It goes to a different port and does not affect the module.
- `printClientMAC` is left out. It only formats output.
- `powerOn`, `powerOff`, `isConnected` and the constructor's `pinMode` calls are left out. They are pin plumbing with no logic.
- `BT_Base` and `BT_Wrapper` in `bluetooth.hpp` only forward calls and are not part of this model.
- The shared global `BUFFER` belongs to each driver object here. Drivers that share one buffer are not modelled.
- Jdy31.Bluetooth.ReadLine: the length is a `nat`. A negative `int` length in the source is not modelled.
- Jdy31.Bluetooth.ReadLine: when the caller passes the shared buffer, the length is at most 128. That keeps the NUL in its last cell.
- Jdy31.Bluetooth.SendSetting requires `|prefix| + |value| <= 128`.
  - `strncat` is bounded by 128 source characters, not by the space left.
  - A longer name or pin overflows `BUFFER` in the source.
- Jdy31.Bluetooth.SetName and Jdy31.Bluetooth.SetPin require the value to contain no NUL. A C string cannot hold one.
- `strncpy` and `strncat` are modelled by their effect on the buffer, as libc defines it.
- `findBaud`'s `readBytes` after a probe is `ProbeRead`, which depends on the rate. It does not consume `inbox`.
- Some source functions are split into helper methods, each proved on its own:
  - `findBaud` into `Probe` and `ProbeRead`;
  - `handlNewConnection` into `DecodeClientMac`;
  - `setBaud` into `WriteUartCommand` and `Reopen`;
  - `setName`/`setPin` into `BuildCommand`, `Exchange` and `SendSetting`;
  - `request_token` into `AwaitToken` and `Poll`.
- `millis()` is a parameter: the reading for `_refill_tokens`, and a sequence of readings for `request_token`.
  - `request_token` requires that the wait ends within the given readings (`Arrives`).
  - A clock that never lets the wait end is described by lemmas (`EmptyBucketWaits`, `ZeroSizeNeverArrives`), not by a method that runs forever.
- TokenBucket.Bucket.RefillTokens requires a non-zero refill interval. The source divides by it.
