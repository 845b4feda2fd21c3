# OmegaCN740 frame codec in Dafny

This project models the frame codec of the `OmegaCN740` client. The client talks to an Omega CN740 temperature controller using Modbus ASCII frames over a serial line. The model covers:

- the unit-address field set up when the client is created;
- the LRC (longitudinal redundancy check) that the client appends to every request;
- the two requests it builds:
  - read holding registers 0x4700 and 0x4701 (temperature and setpoint);
  - write single register 0x4701 (setpoint);
- the decoding of the line the controller sends back;
- `read_temp` and `write_setpoint`, each as a request followed by a decode.

The Python built-ins the code relies on are modelled explicitly, so each can be checked against the way the code uses it. Each lives in its own module:

- `PyText`: `hex(n)[2:]`, `str.zfill`, ASCII `upper`, `codecs.decode(_, 'hex')` and `sum`;
- `PySeq`: slicing with negative and clamped bounds, and `bytes.index`;
- `PyInt`: `int(x, base)` for bases 10 and 16, following CPython's grammar. That grammar allows surrounding whitespace, a sign, a `0x` prefix in base 16, and single underscores between digits.

`HexDigits` defines the value of a hex digit string. That value is the reference every field is checked against.

Modules:

- `CN740Lrc`: `_compute_lrc`.
- `CN740Requests`: the slave field, `_read_temp` and `_write_setpoint`.
- `CN740Reply`: the decode half of `_ask`.
- `OmegaCN740`: the public operations.
- `OmegaCN740Examples`: concrete frames for unit 3.

Exceptions become values:

- an LRC that cannot be computed makes the request builders return `None`;
- the decoder returns `Result<Reading, Failure>`. `Failure` has one constructor for each way the Python code raises:
  - `MarkerNotFound`: `bytes.index` finds no marker;
  - `CountNotInteger`: `int()` refuses the count;
  - `CountUnsupported(n)`: an `UnboundLocalError`, because the result variables are never assigned;
  - `DataNotHex`: `int(_, 16)` refuses a data field;
  - `RequestNotEncodable`: the request could not be built.

Some of the client's behaviour differs from what Modbus ASCII framing leads one to expect, or has gaps a reader might not expect. The model follows the code:

- The slave field is `hex(slave)[2:].zfill(2)`, so it is lowercase ("0a" for unit 10). Modbus ASCII frames are conventionally uppercase, and the rest of each request is. The decoder searches for the same lowercase field, so for a unit whose field holds a letter (10 to 15, 26 to 31, ...) a controller answering in uppercase ("0A03...") is never recognised.
- Received frames are never checked: the LRC and terminator are cut off unread. So the model has no checksum-mismatch error.
- The decoder always searches for slave + "03". A write's reply is never recognised, so there is no write acknowledgement. A controller that echoes the write request makes `write_setpoint` fail.
- The byte count is parsed with `int(message[0:2])`, which reads it in decimal.
- With byte count 2 the temperature is not divided by 10.
- `write_setpoint` sends `10*temperature` as is. There is no rounding and no clamping to 16 bits.
- There are no timeout or busy errors. Those would belong to I/O and concurrency, which are not modelled.

## Model

| member | source | states |
|---|---|---|
| PyText.HexString | device_functions.py:9 | `hex(n)[2:]` has at least one digit, all lowercase hex |
| PyText.HexStringValue | device_functions.py:43 | the digits of `hex(n)[2:]` are worth `n` |
| PyText.HexStringLength | device_functions.py:52 | `hex(n)[2:]` has at most `k` digits exactly when `n < 16^k` |
| PyText.ZFill | device_functions.py:44 | `zfill` pads with zeros on the left to the width and keeps the string as its suffix |
| PyText.ZFillHex | device_functions.py:9 | zero padding keeps hex text hex and keeps its value; lowercase text stays lowercase |
| PyText.ToUpper | device_functions.py:44 | `upper()` keeps the length and upper-cases each character |
| PyText.ToUpperHex | device_functions.py:52 | upper-casing hex text gives uppercase hex of the same value |
| PyText.UpperPaddedHex | device_functions.py:52 | `zfill(w).upper()` of hex text is uppercase hex of the same value |
| PyText.Unhexlify | device_functions.py:42 | `codecs.decode(_, 'hex')` succeeds exactly for even-length text of hex digits, and gives half as many bytes |
| PyText.UnhexlifyBytes | device_functions.py:42 | each decoded byte is the value of its digit pair, below 256 |
| PySeq.ClampIndex | device_functions.py:27 | a slice bound counts from the end when negative, and is clamped to 0 below and to the length above |
| PySeq.Slice | device_functions.py:27 | `s[lo:hi]` is the plain subsequence for in-range bounds, ends early at the length or at a negative end bound, and is empty when the bounds cross, when the start lies past the length or past a negative end bound, and when the end lies before the start of the text |
| PySeq.Index | device_functions.py:27 | `bytes.index`: the first occurrence, or failure when there is none, as `IndexFrom` and `IndexIsFirst` state |
| PySeq.IndexFrom | device_functions.py:27 | a search returns an occurrence with none before it, or none when there is none |
| PySeq.IndexIsFirst | device_functions.py:27 | `bytes.index` returns `i` exactly when the marker occurs at `i` and nowhere before, and fails exactly when it occurs nowhere |
| PySeq.IndexExtend | device_functions.py:26-27 | bytes read after an occurrence cannot move the first occurrence |
| PyInt.Parse | device_functions.py:28-36 | `int(x, base)`: skip whitespace at both ends, an optional sign and base-16 prefix, then digits with single underscores between them. `ParseHexDigits`, `ParseTwoDecimalDigits`, `ParseAccepted` and `ParseRefusesForeign` state what it accepts |
| PyInt.SkipSpaces | device_functions.py:28 | the scan stops within the bounds, at the end or at the first non-whitespace character |
| PyInt.SkippedAreSpaces | device_functions.py:28 | only whitespace is skipped at the front |
| PyInt.DroppedAreSpaces | device_functions.py:28 | only whitespace is dropped at the end |
| PyInt.GroupAccepted | device_functions.py:31 | an accepted digit group holds only digits and underscores and ends in a digit |
| PyInt.GroupHex | device_functions.py:31 | a run of hex digits is a base-16 group worth its hex value |
| PyInt.ParseHexDigits | device_functions.py:31 | `int(s, 16)` of non-empty hex digits is their hex value |
| PyInt.ParseTwoDecimalDigits | device_functions.py:28 | `int()` of two decimal digits is their decimal value, leading zero allowed |
| PyInt.ParseAccepted | device_functions.py:28 | whatever `int()` accepts holds only allowed characters and at least one digit, so empty text is refused |
| PyText.ByteSum | device_functions.py:42 | `sum` of the decoded bytes; `ReadBodySum` and `WriteBodySum` give its value on the two request bodies |
| CN740Lrc.LowByte | device_functions.py:43 | `& 0x0ff` keeps a value below 256 |
| CN740Lrc.LrcDigits | device_functions.py:43-44 | `hex((256 - sum) & 0x0ff)[2:].zfill(2).upper()`; `LrcDigitsCancelSum` states that it cancels the sum and `CancelsUnique` that nothing else does |
| CN740Lrc.ComputeLrc | device_functions.py:40-44 | `_compute_lrc`; `LrcCorrect` states when it succeeds and that its result is a valid LRC, and `LrcUnique` that it is the only valid one |
| CN740Lrc.LrcDigitsCancelSum | device_functions.py:43-44 | the rendered LRC is two uppercase hex digits that cancel the byte sum modulo 256, for any sum |
| CN740Lrc.CancelsUnique | device_functions.py:43-44 | at most one two-digit uppercase string cancels a given sum |
| CN740Lrc.LrcCorrect | device_functions.py:40-44 | `_compute_lrc` succeeds exactly for even-length hex bodies, and its result is a valid LRC of the body |
| CN740Lrc.LrcUnique | device_functions.py:40-44 | any valid LRC of a body is the one `_compute_lrc` returns |
| CN740Requests.SlaveField | device_functions.py:9 | the slave field; `SlaveFieldParsesBack` states its case, value and length |
| CN740Requests.SlaveFieldParsesBack | device_functions.py:9 | the slave field is lowercase hex worth the slave number, at least two digits, and exactly two when the slave is at most 255 |
| CN740Requests.Frame | device_functions.py:48 | colon, body, LRC, CR LF around a body; `FrameDefined` and `FrameShape` state when it exists and its shape |
| CN740Requests.FrameDefined | device_functions.py:48 | a frame can be built exactly around an even-length hex body |
| CN740Requests.FrameShape | device_functions.py:48 | a built frame is colon, body, a valid LRC of the body, CR LF |
| CN740Requests.FixedFieldValues | device_functions.py:47 | the fixed fields read as function 3 and 6, registers 0x4700 and 0x4701, count 2 |
| CN740Requests.BodyOfFields | device_functions.py:47 | four hex fields joined make a hex body whose parity is that of the two variable-length fields |
| CN740Requests.ReadTempRequest | device_functions.py:46-49 | `_read_temp`; the three `ReadTempRequest…` lemmas state when it is built, its frame and its fields |
| CN740Requests.ReadTempRequestDefined | device_functions.py:46-49 | the read request is built exactly when the slave field has even length, so always when the slave is at most 255 |
| CN740Requests.ReadTempRequestShape | device_functions.py:46-49 | the read request is a checked frame around slave + "03" + "4700" + "0002" |
| CN740Requests.ReadTempRequestFields | device_functions.py:46-49 | for a slave up to 255 the read request has 17 characters whose fields parse back to the slave, 3, 0x4700 and 2 |
| CN740Requests.ValueField | device_functions.py:52 | the value field; `ValueFieldParsesBack` states its case, value and length |
| CN740Requests.ValueFieldParsesBack | device_functions.py:52 | the value field is uppercase hex worth the raw value, at least four digits, and exactly four up to 0xFFFF |
| CN740Requests.WriteSetpointRequest | device_functions.py:51-54 | `_write_setpoint`; the three `WriteSetpointRequest…` lemmas state when it is built, its frame and its fields |
| CN740Requests.WriteSetpointRequestDefined | device_functions.py:51-54 | the write request is built exactly when slave and value fields together have even length, so always for a slave up to 255 and a raw value up to 0xFFFF |
| CN740Requests.WriteSetpointRequestShape | device_functions.py:51-54 | the write request is a checked frame around slave + "06" + "4701" + value |
| CN740Requests.WriteSetpointRequestFields | device_functions.py:51-54 | for a slave up to 255 and a 16-bit raw value the write request has 17 characters whose fields parse back to the slave, 6, 0x4701 and the raw value |
| CN740Reply.DecodeReply | device_functions.py:27-38 | the decode half of `_ask`; `DecodeMarkerAbsent`, the round trips, `DecodeIgnoresTrailer` and the `DecodeRejects…` lemmas state its results |
| CN740Reply.DecodeAfter | device_functions.py:27 | the search for the marker and the slice four past it up to the last four characters; `DecodeBeforeTail` states which text it reads |
| CN740Reply.DecodeFields | device_functions.py:29-37 | the branches on the byte count yield neither a missing marker nor an unbuildable request, which arise before the message is read |
| CN740Reply.DecodeMessage | device_functions.py:28-38 | the count-2/count-4 branches on the message's slices `[0:2]`, `[2:6]` and `[6:10]`; `DecodeFourByteFields`, `DecodeTwoByteFields`, `OtherCountMessage`, `DecodeNonHexFields` and `ShortMessageFails` state its results |
| CN740Reply.UppercaseReplyNotFound | device_functions.py:27 | for a unit whose slave field holds a lowercase letter, a response without lowercase hex letters fails with `MarkerNotFound` |
| CN740Reply.DecodeMarkerAbsent | device_functions.py:27 | the decode fails with `MarkerNotFound` exactly when slave + "03" occurs nowhere in the response |
| CN740Reply.ReplyMessage | device_functions.py:27 | in a reply ":" + slave + "03" + payload + four trailer characters, the marker is first found after the colon and the message read is the payload |
| CN740Reply.MessageFields | device_functions.py:28-32 | the count and the two data fields sit where the decoder slices |
| CN740Reply.DecodeFourByteFields | device_functions.py:28-33 | any message whose count field is "04" and whose fields `m[2:6]` and `m[6:10]` are non-empty hex of either case, worth `t` and `s`, decodes to `t/10` and `s/10`; what follows index 10 is not read |
| CN740Reply.DecodeTwoByteFields | device_functions.py:28-37 | any message whose count field is "02" and whose field `m[2:6]` is non-empty hex of either case, worth `t`, decodes to `t`, unscaled, and no setpoint; what follows index 6 is not read |
| CN740Reply.DecodeFourByteMessage | device_functions.py:28-33 | a count-4 message with two four-digit fields decodes to both values divided by 10 |
| CN740Reply.DecodeFourByteReply | device_functions.py:27-33 | round trip: a count-4 reply carrying the four-digit value fields of `t` and `s` decodes to `t/10` and `s/10`, whatever the trailer |
| CN740Reply.DecodeTwoByteMessage | device_functions.py:34-37 | a count-2 message decodes to its value, unscaled, with no setpoint |
| CN740Reply.DecodeTwoByteReply | device_functions.py:27-37 | round trip: a count-2 reply carrying the value field of `t` decodes to `t` and no setpoint |
| CN740Reply.DecodeIgnoresTrailer | device_functions.py:27 | once the marker occurs, the last four characters (LRC and CR LF) never change the result |
| CN740Reply.DecodeBeforeTail | device_functions.py:27 | with the marker in `p`, the message read from `p` + four characters is the text of `p` from four past the marker |
| CN740Reply.SliceBeforeTail | device_functions.py:27 | cutting four characters off `p` + four characters leaves a slice of `p` |
| CN740Reply.ParseRefusesForeign | device_functions.py:28 | `int()` refuses empty text and text with a character no number may hold |
| CN740Reply.DecodeRejectsNonDecimalCount | device_functions.py:28 | a count field holding a character no decimal number may hold, such as "0A", fails with `CountNotInteger` |
| CN740Reply.DecodeRejectsOtherCounts | device_functions.py:28-38 | a count of two decimal digits other than 02 and 04 fails with `CountUnsupported` of that count, read in decimal |
| CN740Reply.OtherCountMessage | device_functions.py:28-38 | the same for the message alone |
| CN740Reply.DecodeNonHexFields | device_functions.py:28-36 | any message with count field "02" or "04" fails with `DataNotHex` when its slice `[2:6]`, or for count 4 its slice `[6:10]`, is empty or holds a character no base-16 number may hold, whatever its length and whatever follows |
| CN740Reply.DecodeRejectsNonHexData | device_functions.py:30-36 | a data field holding a character no base-16 number may hold fails with `DataNotHex`: the temperature for either count, whatever follows it, also when cut short by the end of the message, and a setpoint of up to four characters for count 4 |
| CN740Reply.NonHexDataMessage | device_functions.py:30-36 | the same for the message alone |
| CN740Reply.DecodeRejectsMissingData | device_functions.py:30-36 | nothing after count 2, or no setpoint character after count 4, fails with `DataNotHex` |
| CN740Reply.DecodeShortSetpoint | device_functions.py:32-33 | a setpoint field of one to three hex digits, worth `v`, after count 4 is still accepted, and read as `v/10` |
| CN740Reply.ShortMessageFails | device_functions.py:28-38 | a message of at most two characters never decodes |
| CN740Reply.EchoMarkerLate | device_functions.py:27 | in an echoed write frame, slave + "03" cannot start before index 7 |
| CN740Reply.WriteEchoNeverDecodes | device_functions.py:51-54 | the echo of any write request, for every slave up to 255, every 16-bit value and any LRC, never decodes |
| OmegaCN740.ReadTemp | device_functions.py:16-18 | `read_temp`; `ReadTempComposition` and `ReadTempRoundTrip` state its results |
| OmegaCN740.WriteSetpoint | device_functions.py:20-22 | `write_setpoint` on the raw value; `WriteSetpointComposition` and `WriteSetpointOwnEcho` state its results |
| OmegaCN740.ReadTempComposition | device_functions.py:16-18 | `read_temp` fails before any exchange exactly when the read request cannot be built; otherwise, and always for a slave up to 255, it is the decode of the response |
| OmegaCN740.ReadTempRoundTrip | device_functions.py:16-18 | `read_temp` against a count-4 reply carrying `t` and `s` returns `t/10` and `s/10` |
| OmegaCN740.WriteSetpointComposition | device_functions.py:20-22 | `write_setpoint` fails before any exchange exactly when the write request cannot be built; otherwise it is the decode of the response |
| OmegaCN740.WriteSetpointOwnEcho | device_functions.py:20-22 | for every slave up to 255 and raw value up to 0xFFFF, `write_setpoint` fails when the controller echoes its request |
| OmegaCN740Examples.SlaveTen | device_functions.py:9 | unit 10 is sent as lowercase "0a" |
| OmegaCN740Examples.SlaveTooLong | device_functions.py:9 | unit 256 needs three digits |
| OmegaCN740Examples.SlaveTooLarge | device_functions.py:46-49 | no read request can be built for unit 256 |
| OmegaCN740Examples.ReadBodySum | device_functions.py:42 | the bytes of "030347000002" sum to 79 |
| OmegaCN740Examples.LrcOf79 | device_functions.py:43-44 | the LRC of 79 is "B1" |
| OmegaCN740Examples.ReadRequestExample | device_functions.py:46-49 | the read request for unit 3 is ":030347000002B1\r\n" |
| OmegaCN740Examples.WriteBodySum | device_functions.py:42 | the bytes of "0306470100FF" sum to 336 |
| OmegaCN740Examples.LrcOf336 | device_functions.py:43-44 | the LRC of 336 is "B0": the sum is taken modulo 256 |
| OmegaCN740Examples.WriteRequestExample | device_functions.py:51-54 | the write request for unit 3 and raw value 255 is ":0306470100FFB0\r\n" |
| OmegaCN740Examples.WriteEchoExample | device_functions.py:20-22 | unit 3 echoing that write request makes `write_setpoint` fail |
| OmegaCN740Examples.FourByteReplyExample | device_functions.py:27-33 | `read_temp` of ":03030404B0012C15\r\n" is 120.0 and 30.0 |
| OmegaCN740Examples.TwoByteReplyExample | device_functions.py:27-37 | the decode of ":0303020001F7\r\n" is 1 and no setpoint |
| OmegaCN740Examples.CountTenExample | device_functions.py:28 | a byte count "10" is ten, which is unsupported |
| OmegaCN740Examples.NonHexTemperatureExample | device_functions.py:30-31 | a count-4 reply with temperature "0G00" and a two-character setpoint fails with `DataNotHex` |
| OmegaCN740Examples.CutShortReplyExample | device_functions.py:26-33 | the line ":03030404B001", cut short by the read timeout, leaves the message "0404" with no setpoint and fails with `DataNotHex` |
| OmegaCN740Examples.UppercaseTenExample | device_functions.py:27 | the uppercase reply ":0A03020001F0\r\n" for unit 10 fails with `MarkerNotFound` |
| OmegaCN740Examples.ParseSpaced | device_functions.py:28 | `int(" 4")` is 4 |
| OmegaCN740Examples.ParseHexInDecimal | device_functions.py:28 | `int("4B")` is refused |
| OmegaCN740Examples.ParsePrefixed | device_functions.py:31 | `int("0x1F", 16)` is 31 |
| OmegaCN740Examples.ParseUnderscore | device_functions.py:28 | `int("1_0")` is 10 |

## Left out

- Serial port setup, `flushInput`/`flushOutput`, the one-second sleep, `write` and `readline` (device_functions.py:10-14, 25-26) are I/O. The line read back is a parameter of `ReadTemp` and `WriteSetpoint`.
- The temperature passed to `write_setpoint` and the product `10*temperature` (line 21) are Python numbers. `WriteSetpoint` takes the integer raw value instead. A float product makes `hex()` raise `TypeError`, and that case is not modelled.
- Negative unit numbers and negative raw values are not modelled. They are `nat` here. For those inputs `hex()` gives a leading "-0x" that the code's `[2:]` mangles.
- Division by 10 (lines 31 and 33) gives a Python float. The model uses an exact `real`, so rounding to the nearest double is not modelled. With count 2 (line 36) Python returns an `int`. `Reading` holds a `real` for both counts, so the int/float distinction is not modelled.
- `int()` is modelled for bases 10 and 16 on ASCII bytes only, which is all the decoder passes it. Non-ASCII digits and whitespace never occur in a byte string.
- Timeouts, concurrency and retries are not modelled. The code has none of its own beyond the serial port's read timeout.
- triggered_logger.py, standalone_logger.py and read_temp.py are callers of the client and are not part of this model.
- CN740Reply.DecodeFields: its own contract only excludes the two failures that arise elsewhere. What it computes for each count is stated by the `Decode…` lemmas about `DecodeReply` and `DecodeMessage`.
