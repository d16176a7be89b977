# ezo-rtd: a Dafny model of the RTD chip driver core

This project models the core of `ezo-rtd`, a Rust driver for the Atlas
Scientific EZO RTD temperature circuit on an I2C bus:

- **the command table** (`src/command.rs`). Each command has an ASCII wire
  string, a settle delay in milliseconds and an expected response. Each
  command also has a case-insensitive `FromStr` parser.
- **`ReadingWithScale::run`** (`src/command.rs`). It queries the scale, sends
  `R`, waits, reads a 16-byte buffer in place and decodes that buffer by its
  status byte.
- **the response parsers** (`src/response.rs`). These cover the
  nul-terminated UTF-8 check and the scale, logger-interval, temperature and
  device-status replies.
- **the `CommandOptions` builder** (`src/common.rs`). Its setters, `finish`,
  `delay`, `write`, `read_response`, `run` and `parse_response` are modelled
  as a class with fields.

Modules, in dependency order:

- `Outcomes`: error kinds, `Option` and `Result`.
- `Text`: bytes, ASCII upper-casing, `starts_with`, `split`.
- `Numerals`: decimal text and Rust's unsigned `from_str`.
- `Utf8`: a decoder, an encoder and their round trips.
- `Floats`: `f64` parsing and formatting passed in as parameters.
- `EzoCommon`: the helpers of the `ezo_common` crate, passed in as parameters.
- `Response`, `Bus` (a device that records what is done to it), `Commands`,
  `CommandExamples`, `ScaledReading` and `Common`.

The model follows the code as written. A few of its points are easy to miss:

- the status reply must start with `?Status,` exactly, in that case (`src/response.rs:137`);
- the scale replies are exactly `?S,c`, `?S,k` and `?S,f`, in lower case (`src/response.rs:29-31`);
- the interval reply is any `u32`, with no further range check (`src/response.rs:62-73`);
- nothing is ever retried: not a write and not a read (`src/common.rs:62-77`, `src/command.rs:550-588`). A pending status is reported as `PendingResponse` only by `ReadingWithScale::run` (`src/command.rs:578`). `parse_response` turns every status other than success, pending included, into an empty string (`src/common.rs:78-91`);
- a success buffer without a nul is a `MalformedResponse`; the code does not fall back to the whole buffer (`src/command.rs:568-574`).

The code's own documentation disagrees with it in one place. The doc line of
`DataloggerPeriod` (`src/command.rs:210`) says `n` is greater than 0.
The parser refuses only the field spelled `0`, so `D,00` and `D,+0` are
accepted as period 0. The model follows the code (`Commands.PeriodQuirk`).

## Model

| member | source | states |
|---|---|---|
| Text.Upper | src/command.rs:54 | `to_uppercase` keeps the length and maps each character on its own, ASCII lower-case letters to upper case and everything else unchanged |
| Text.Split | src/command.rs:57 | `split(',')` yields at least one field, and no field contains the separator |
| Text.JoinSplit | src/command.rs:53-76 | `split(',')` rebuilds its input: joining the fields with the separator gives the original text back |
| Text.SplitJoin | src/command.rs:53-76 | splitting comma-joined, comma-free fields gives exactly those fields |
| Text.SplitNoSep | src/command.rs:53-76 | a text without a comma is one field, so a second `split.next()` is `None` |
| Text.UpperIdempotent | src/command.rs:53-55 | `to_uppercase` applied twice equals applied once |
| Numerals.Decimal | src/command.rs:211 | the `{}` text of a number is non-empty, all digits, and has no leading zero unless it is `0` itself |
| Numerals.ParseUnsigned | src/command.rs:224-225 | `u32::from_str` and `u16::from_str`: an accepted value never exceeds the type's maximum |
| Numerals.ParseDecimal | src/command.rs:214-236 | `parse::<u32>` and `parse::<u16>` read back the decimal text of every value up to the bound |
| Numerals.ParseLeadingZero | src/command.rs:214-236 | a leading `0` or `+` before digits is accepted and does not change the value |
| Numerals.ParseRejectsNonDigit | src/command.rs:313-335 | a field with a character that is not a digit (and not a leading `+`) is rejected |
| Numerals.ParseAcceptsOnlyDigits | src/command.rs:313-335 | conversely, every accepted field is digits after an optional leading `+` |
| Numerals.ParseRejectsEmpty | src/command.rs:313-335 | an empty field is rejected |
| Numerals.ParseRejectsOverflow | src/command.rs:313-335 | a value above the bound is rejected, not truncated |
| Utf8.Decode | src/response.rs:41-43 | `to_str`: accepted bytes decode to at most as many characters as there are bytes |
| Utf8.Encode | src/response.rs:41-43 | every character takes one to four bytes |
| Utf8.DecodeIff | src/response.rs:38-46 | `to_str` succeeds with text `s` exactly when the bytes are the UTF-8 encoding of `s` |
| Utf8.DecodeEncode | src/response.rs:38-46 | decoding the encoding of any text gives it back |
| Utf8.EncodeDecode | src/response.rs:38-46 | bytes that decode are the encoding of what they decode to |
| Response.StrFromResponse | src/response.rs:38-46 | a response that is not nul-terminated with no earlier nul is a `MalformedResponse`, and every failure is one |
| Response.StrFromResponseIff | src/response.rs:38-46 | accepted responses are exactly UTF-8 encodings of nul-free text followed by one nul, and the result is that text |
| Response.ReplyParses | src/response.rs:38-46 | every nul-free reply text passes the terminator and encoding checks unchanged |
| Response.ParseTemperatureScaleResponse | src/response.rs:25-34 | a response that is not nul-terminated is a `MalformedResponse` |
| Response.TemperatureScaleParseIff | src/response.rs:25-34 | a response parses to a scale exactly when it is that scale's reply `?S,c`, `?S,k` or `?S,f` |
| Response.TemperatureScaleParseRejects | src/response.rs:25-34 | every other response is an error |
| Response.TemperatureScaleExamples | src/response.rs:190-203 | the empty response, a lone nul, a missing nul, `?S,` and upper-case `?S,C` are all rejected |
| Response.ParseDataLoggerStorageIntervalResponse | src/response.rs:62-73 | a response that is not nul-terminated is a `MalformedResponse` |
| Response.IntervalRoundTrip | src/response.rs:62-73 | `?D,n` parses to `n` for every `u32` |
| Response.IntervalRequiresPrefix | src/response.rs:62-73 | text without the `?D,` prefix is a `ResponseParse` error |
| Response.IntervalRequiresNumber | src/response.rs:62-73 | after the prefix, anything that is not a `u32` is a `ResponseParse` error |
| Response.IntervalExampleOne | src/response.rs:205-214 | `?D,1` denotes one second |
| Response.IntervalExampleEmpty | src/response.rs:216-226 | `?D,` is rejected |
| Response.IntervalExampleNegative | src/response.rs:216-226 | `?D,-1` is rejected |
| Response.IntervalExampleWord | src/response.rs:216-226 | `?D,foo` is rejected |
| Response.NewTemperature | src/response.rs:84-92 | the result carries the given scale and the given value |
| Response.NewTemperatureOfParts | src/response.rs:84-92 | every temperature is `Temperature::new` of its own scale and value |
| Response.ParseTemperatureResponse | src/response.rs:105-109 | a response that is not nul-terminated is malformed, and an accepted reading is tagged with the scale passed in |
| Response.TemperatureResponseParse | src/response.rs:105-109 | a reply whose whole text is an `f64` parses to that value under the given scale; any other reply text is a `ResponseParse` error |
| Response.ReasonOfCode | src/response.rs:142-149 | a restart code is accepted only if it is one of the five one-letter codes, with no default |
| Response.ReasonCodeRoundTrip | src/response.rs:142-149 | each restart reason's code maps back to that reason |
| Response.ParseDeviceStatusResponse | src/response.rs:134-168 | a response that is not nul-terminated is a `MalformedResponse` |
| Response.StatusReplyFields | src/response.rs:137-141 | the status reply starts with `?Status,` and splits into exactly the code and the voltage |
| Response.DeviceStatusRoundTrip | src/response.rs:134-168 | every status reply with a readable voltage parses to its reason and that voltage |
| Response.DeviceStatusParseSound | src/response.rs:134-168 | every accepted response is the status reply for the reason and voltage it parses to |
| Response.DeviceStatusRejectsReason | src/response.rs:142-149 | a restart field that is not a code is a `ResponseParse` error |
| Response.DeviceStatusRejectsMissingVoltage | src/response.rs:151-156 | a status with no voltage field is rejected |
| Response.DeviceStatusRejectsThirdField | src/response.rs:158-160 | any third field, even an empty one, is rejected |
| Response.DeviceStatusExamplePoweredOff | src/response.rs:252-288 | `?Status,P,1.5` denotes power-off at 1.5 V |
| Response.DeviceStatusExampleUnknownCode | src/response.rs:290-300 | `?Status,X,` is rejected |
| Response.DeviceStatusExampleThirdField | src/response.rs:290-300 | `?Status,P,1.5,` is rejected |
| Response.DeviceStatusExampleUpperPrefix | src/response.rs:137 | the prefix is case-sensitive: `?STATUS,P,1.5` is rejected |
| Response.NoDefaults | src/response.rs:25-168 | none of the four parsers falls back to a default for an unterminated response; each reports `MalformedResponse` |
| Bus.Device.QueryScale | src/command.rs:552 | `ScaleState.run` adds one scale-query event and returns the device's answer |
| Bus.Device.Write | src/command.rs:556-557 | `write_to_ezo` records the command written and reports the device's outcome |
| Bus.Device.Sleep | src/command.rs:559 | the settle sleep is recorded with its duration |
| Bus.Device.Read | src/command.rs:561-564 | `dev.read(&mut buffer)` records one read; when it succeeds the buffer in place holds the device's bytes, and when it fails the buffer is left as it was |
| Bus.Device.ReadRaw | src/common.rs:71-77 | `read_raw_buffer` records one read and returns the device's bytes or an `I2CRead` error |
| Commands.Render | src/command.rs:45-695 | `get_command_string`: every wire string is non-empty. The strings themselves are given by the six `NullaryWireStrings` lemmas, `FromStrAgrees`, `ArgumentRoundTrip`, `ReadingWithScaleTable` and the argument examples |
| Commands.Delay | src/command.rs:45-695 | `get_delay`: every settle delay is 0, 300, 600, 900 or 1000 ms |
| Commands.ExpectedResponse | src/command.rs:45-695 | the `resp` argument of the table: a command with an argument reads an acknowledgement, except `BAUD,n` and `I2C,n`, which read nothing |
| Commands.Field | src/command.rs:53-335 | the field reader of an argument command only builds a command of that command's own type |
| Commands.ParseArgument | src/command.rs:53-335 | an argument command succeeds only when the upper-cased input starts with its prefix and the rest is a single comma-free field that the field reader turns into the result; every failure is a `CommandParse` error |
| Commands.Parse | src/command.rs:53-695 | every `from_str` failure is a `CommandParse` error, and every success is a command of the parser's own type; a command without argument matches its own `from_str` literal, kept in a table (`FromStrText`) separate from the wire strings |
| Commands.NullaryCommand | src/command.rs:109-695 | each kind of command that has no argument has one command, of that kind |
| Commands.DelayTable | src/command.rs:45-695 | the settle delays are 0 for `Baud`, `Factory` and `Sleep` only, 1000 for a calibration only, 600 for `Reading` only, 900 for `ReadingWithScale` only, and 300 for everything else |
| Commands.ReadingWithScaleTable | src/command.rs:539-548 | `ReadingWithScale` sends the reading's string `R` and waits as long as the scale query and the reading together (900 ms) |
| Commands.ExpectedTable | src/command.rs:45-695 | exactly `Baud`, `Factory`, `Find`, `DeviceAddress` and `Sleep` read no response; exactly the thirteen setting commands (calibration, `Cal,clear`, import, `D,n`, `D,0`, LED on and off, memory clear, protocol lock on and off, three scales) read an acknowledgement; exactly the thirteen queries (`CAL,?`, `EXPORT`, `EXPORT,?`, `D,?`, `I`, `L,?`, `M`, `M,?`, `PLOCK,?`, `R`, the scaled reading, `S,?`, `STATUS`) read a typed response. The response type is pinned only for the four whose parsers `src/response.rs` defines: `S,?`, `STATUS`, the scaled reading and `D,?` |
| Commands.RateOfFieldIff | src/command.rs:60-70 | a `BAUD,` field selects a rate exactly when it is that rate's digits |
| Commands.RateTextDigits | src/command.rs:45-48 | every rate renders as decimal digits |
| Commands.ParseAnyCase | src/command.rs:53-695 | every parser sees only the upper-cased input, so case never matters |
| Commands.FromStrAgrees | src/command.rs:109-695 | for each of the 25 commands without argument, the literal its `from_str` matches is the string its `get_command_string` sends |
| Commands.FromStrUpper | src/command.rs:119-691 | every `from_str` literal is upper case, so the upper-cased input can match it |
| Commands.NullaryParseIff | src/command.rs:109-695 | a command without argument accepts exactly its wire string in any case (through `FromStrAgrees`), and every other input is a `CommandParse` error |
| Commands.ArgumentParseIff | src/command.rs:53-335 | an argument command accepts exactly its prefix, then one comma-free field that its field reader accepts |
| Commands.ArgumentRejectsExtraField | src/command.rs:53-335 | a second comma-separated field is rejected by every argument command |
| Commands.ArgumentRejectsField | src/command.rs:53-335 | a field that the field reader refuses makes the whole parse fail |
| Commands.NullaryRoundTrip | src/command.rs:109-695 | the wire string of each command without argument parses back to it |
| Commands.ArgumentRoundTrip | src/command.rs:45-335 | the rendered argument of a round-tripping command is upper case, comma-free and read back by its field reader |
| Commands.RoundTrip | src/command.rs:45-695 | parsing a command's wire string gives the command back: every nullary command, every baud rate and address, every period other than 0, every calibration whose two-decimal text reads back, every import of 1 to 12 upper-case comma-free bytes |
| Commands.BaudParseIff | src/command.rs:53-76 | `Baud::from_str` gives a rate exactly when the upper-cased input is that rate's wire string |
| Commands.PeriodQuirk | src/command.rs:217-236 | only the field spelled `0` is refused: any other spelling of zero is accepted as period 0 |
| Commands.AddressRejectsOverflow | src/command.rs:316-335 | an address above 65535 is an error, not a truncation |
| Commands.ImportParseIff | src/command.rs:188-206 | `Import::from_str` accepts exactly `IMPORT,` followed by one comma-free field of 1 to 12 bytes, and stores the field upper-cased |
| Commands.ImportRenderUnchecked | src/command.rs:180-206 | an import of 13 or more bytes renders verbatim, yet its wire string does not parse back |
| CommandExamples.PeriodExampleTen | src/command.rs:893-900 | `d,10` is period 10, rendered `D,10` |
| CommandExamples.PeriodExampleEmpty | src/command.rs:902-909 | `d,` is rejected |
| CommandExamples.PeriodExampleNonDigit | src/command.rs:902-909 | `D,2a0` is rejected |
| CommandExamples.PeriodRejectsZero | src/command.rs:217-253 | `D,0` is not a period; it is the disable command |
| CommandExamples.PeriodAcceptsOtherZeros | src/command.rs:217-236 | `D,00` and `D,+0` are period 0 |
| CommandExamples.AddressExampleOne | src/command.rs:1047-1054 | `i2c,1` is address 1, rendered `I2C,1` |
| CommandExamples.AddressExamplesRejected | src/command.rs:1056-1066 | `I2C,` and `I2C,a` are rejected |
| CommandExamples.AddressExampleNonDigit | src/command.rs:1056-1066 | `I2C,2a0` is rejected |
| CommandExamples.ImportExample | src/command.rs:983-990 | `IMPORT,abcdef` is the import of `ABCDEF` |
| CommandExamples.ImportExampleTooLongRender | src/command.rs:975-981 | the 15-byte import `ABCDEFGHIJKLMNO` renders as `IMPORT,ABCDEFGHIJKLMNO` |
| CommandExamples.ImportExampleTooLong | src/command.rs:188-206 | that wire string is rejected by `Import::from_str` |
| CommandExamples.NullaryExamples | src/command.rs:109-695 | `Cal,CLEAR` and `Sleep` parse in any case; `SLEEP,` does not |
| CommandExamples.NullaryWireStringsCalibration | src/command.rs:854-966 | `CAL,CLEAR`, `CAL,?`, `EXPORT` and `EXPORT,?` are the wire strings of those four commands |
| CommandExamples.NullaryWireStringsDevice | src/command.rs:911-1031 | `D,0`, `D,?`, `FACTORY`, `F` and `I` are the wire strings of those five commands |
| CommandExamples.NullaryWireStringsLed | src/command.rs:1068-1139 | `L,1`, `L,0`, `L,?`, `M,CLEAR` and `M` are the wire strings of those five commands |
| CommandExamples.NullaryWireStringsLock | src/command.rs:1148-1203 | `M,?`, `PLOCK,1`, `PLOCK,0` and `PLOCK,?` are the wire strings of those four commands |
| CommandExamples.NullaryWireStringsReading | src/command.rs:1212-1258 | the reading and the scaled reading both send `R`; the Celsius and Kelvin scales send `S,C` and `S,K` |
| CommandExamples.NullaryWireStringsScale | src/command.rs:1267-1322 | `S,F`, `S,?`, `SLEEP` and `STATUS` are the wire strings of those four commands |
| ScaledReading.DecodeText | src/command.rs:571-587 | an extraction failure is a `MalformedResponse`; a success is exactly `Temperature::parse` of the extracted text under the queried scale |
| ScaledReading.Decode | src/command.rs:566-587 | a decoded reading comes from a success status and a buffer with a nul, and is the parse of the text extracted from the payload up to that nul; a non-success status gives only `PendingResponse`, `DeviceErrorResponse`, `NoDataExpectedResponse` or `MalformedResponse` |
| ScaledReading.FirstNul | src/command.rs:569 | `iter().position(\|&c\| c == 0)`: the index of the first zero byte, with no zero before it, and `None` exactly when there is no zero |
| ScaledReading.FirstNulAt | src/command.rs:569 | a zero byte with no zero before it is the one found |
| ScaledReading.DecodeStatusErrors | src/command.rs:578-584 | each non-success status has its own fixed error and does not depend on the payload, the helpers or the parser |
| ScaledReading.DecodeNoNul | src/command.rs:568-574 | on success, a buffer with no zero byte is a `MalformedResponse` |
| ScaledReading.DecodePayload | src/command.rs:568-573 | on success, exactly the payload up to and including the first zero byte is handed to the extraction helper, however the rest of the buffer is filled |
| ScaledReading.DecodeZeroStatus | src/command.rs:566-573 | the search includes the status byte: a zero status byte counted as success hands on an empty slice |
| ScaledReading.Run | src/command.rs:550-588 | the scale is queried first and its error stops everything; then `R` is written, and a failed write stops before the sleep and the read; then one sleep of 600 ms and one read into the 16-byte buffer; a failed read is `I2CRead`; otherwise the result is the decode of the bytes read under the queried scale |
| Common.ParseResponseData | src/common.rs:78-91 | no data, or a status other than success, is the empty string; every failure is `DataNotParsable` |
| Common.ParseResponseDataIff | src/common.rs:78-91 | on success the result is `s` exactly when the helper's payload bytes are the UTF-8 encoding of `s` |
| Common.ParseResponseDataErrIff | src/common.rs:78-91 | on success it fails exactly when the payload bytes encode no text |
| Common.ParseResponseDataExample | src/common.rs:83-86 | a lone 0xFF payload byte is not parsable |
| Common.CommandOptions.constructor | src/common.rs:13-19 | the default options: an empty command and no delay, response or data |
| Common.CommandOptions.SetCommand | src/common.rs:94-97 | sets the command and changes no other field |
| Common.CommandOptions.SetDelay | src/common.rs:98-101 | sets the delay and changes no other field |
| Common.CommandOptions.SetResponse | src/common.rs:102-105 | sets the expected response and changes no other field |
| Common.CommandOptions.Finish | src/common.rs:59-61 | returns a fresh copy with equal fields |
| Common.CommandOptions.Delay | src/common.rs:53-58 | sleeps once when a delay is set and not at all otherwise; always succeeds |
| Common.CommandOptions.Write | src/common.rs:68-70 | writes the command once; a failed write is `WriteFailed` |
| Common.CommandOptions.ReadResponse | src/common.rs:71-77 | reads once and stores the bytes only when a response is expected; a failed read is `I2CRead` and leaves `data` unchanged |
| Common.CommandOptions.ParseResponse | src/common.rs:78-91 | no stored data is the empty string; on success it succeeds exactly when the payload is valid UTF-8 |
| Common.CommandOptions.Run | src/common.rs:62-67 | write, then delay, then read, stopping at the first error: a failed write means no sleep, no read and `data` unchanged |

## Left out

- `f64::from_str` and the `{:.2}` formatting of a calibration temperature are not modelled. They are passed in as the two functions of `Floats.FloatText`, and the properties that involve them assume only what is stated about those functions.
- The helpers of the `ezo_common` crate are not part of this model: `response_code`, `string_from_response_data`, `parse_data_ascii_bytes`, `write_to_ezo` and `read_raw_buffer`. The first three are passed in through `EzoCommon.Helpers`. The device calls are events of `Bus.Device`.
- `BpsRate::parse` belongs to `ezo_common`. `EzoCommon.RateText` gives it the eight rate texts that the `Baud` tests in `src/command.rs:700-827` expect.
- `Temperature::parse`, which `ReadingWithScale::run` calls, is not defined in `src/response.rs`. `ScaledReading.Run` takes it as a parameter.
- `ScaleState.run` and the other `run` methods come from the `define_command!` macro, whose definition is not part of this model. `ScaleState.run` is modelled as one recorded exchange that returns the device's answer. For the other commands, only the table the macro is given is modelled: wire string, delay and response type.
- I2C transport, concurrency and real time are not modelled. A sleep is a recorded event with its duration.
- `to_uppercase` is modelled on ASCII letters only. Non-ASCII text is left as it is, so Unicode case mapping is not captured.
- The response types that the command table names but `src/response.rs` does not define appear only as names in `Commands.ResponseType`. These are calibration status, export, export info, device info, LED status, memory reading, protocol lock status, sensor reading, and `DeviceStatus`, the response of `Status` (imported at `src/command.rs:20`); `src/response.rs` defines only `DeviceStatusResponse`, whose parser `Response.ParseDeviceStatusResponse` models.
- An `f64` is modelled as a `real`, so infinities and NaN are not representable. A voltage or temperature that `f64::from_str` would read as `inf` or `NaN` is outside the model.
- The error-chain message texts are not modelled. An error is its `ErrorKind`.
- Common.CommandOptions.ParseResponse: the source panics when the stored buffer is empty (`data[0]`). The model requires a non-empty buffer instead.
- Commands.ImportParseIff: the length check is on the UTF-8 byte length (`n.len()`) of the upper-cased field, as in the source, not on its character count.
- ScaledReading.Run: the buffer is modelled as exactly `MAX_DATA` bytes, and the device's reply as exactly that many. A short read by the I2C driver is not modelled.
- `src/lib.rs`, `src/errors.rs` and the two example programs of the repository (`read-loop`, `state-of-sensor`) are not part of this model.
