# Lorenz torque-sensor telegram library, modelled in Dafny

This project models the core of a Python library that talks to Lorenz
torque sensors over a serial line. There are three parts.

- **Telegram protocol** (`telegram.py`). The `Command` enumeration and the
  table of expected response lengths (`cmd_parameter_counts`). The
  `Telegram` class with its 8-bit checksum pair, STX byte-stuffing,
  `serialize` and `from_bytes`. The `LorenzConnector` session object with its
  request/response exchange, its `mode` field, and the header-less streaming
  frames.
- **Configuration blocks** (`configBlocks.py`). The `ConfigBlock` base class,
  with `from_payload`, `gen_payload`, `__setattr__`, `serialize` and its
  16-bit checksums. The three declared blocks: `STATOR_HEADER`,
  `STATOR_HARDWARE` and `STATOR_OPERATION`.
- **Procedural codec** (`LCTSfunctions.py`). `Methods.CleanTg`, `ToHex`,
  `CalcChecksums`, `CheckChecksums`, `TransformData`, `GetRaw` and
  `ReceiveTg`. All the `BytearrayCommands` request builders.

Modules, one per concern:

| file | module | contents |
|---|---|---|
| `common.dfy` | `Common` | bytes, `Option`, `Result`, the Python exceptions that can occur |
| `checksum8.dfy` | `Checksum8` | the one-byte checksum/weighted-checksum loop shared by `telegram.py` and `LCTSfunctions.py`, specified once |
| `telegram_codec.dfy` | `TelegramCodec` | commands, stuffing, frames, `Decode`, class `Telegram` |
| `connector.dfy` | `Connector` | class `LorenzConnector` over a modelled serial port, response framing, streaming |
| `config_blocks.dfy` | `ConfigBlocks` | field layouts, lookup tables, class `ConfigBlock` |
| `lcts.dfy` | `Lcts` | `Methods` and `BytearrayCommands` |

How the source's forms become Dafny:

- State the source updates in place becomes a Dafny `class`: `Telegram`,
  `LorenzConnector` and `ConfigBlock`. Each method is proved against a
  specification function on values, such as `Decode`, `Exchange`,
  `GenPayloadSpec` or `Populate`.
- Loops become `while`/`for` loops with invariants. Python lists that are
  mutated in place (`ToHex`, `TransformData`) become arrays.
- The serial port is two byte sequences. `input` holds what the device has
  sent and not yet been read; an empty `input` on a read stands for a read
  timeout. `output` holds everything written so far.
- Python exceptions become `Err` values of `Result`. The cases covered are
  IndexError, KeyError, TypeError, ValueError, AttributeError,
  UnboundLocalError, BadBlockID, UnsupportedCommand and ConnectionError.

Places where the code and the protocol's intended contract differ. The
model follows the code:

- `from_bytes` never raises on a checksum mismatch; it sets `valid`.
  Parameters are taken from the frame length (`body[4:-2]`), not from the
  count byte. A count of 0 keeps the telegram's previous parameters.
  On a short frame it raises after partially assigning fields.
- `_recv_telegram` returns None on a read timeout instead of raising.
- `streaming_recv_poll` returns `(0, None)` when too few bytes are waiting.
  It returns None only when not streaming.
- A configuration round trip through a lookup table is not always exact.
  `BlockRoundTrip` states exactly which values survive, and
  `PulsesKeyValueLost` and `PulsesZeroBecomesFF` show values that do not.
- Writing a read-only block raises AttributeError.
- `RestartDevice` is code 0x49 in `telegram.py` and 0x4B in
  `LCTSfunctions.py`. Each module keeps its own file's value.

## Model

| member | source | states |
|---|---|---|
| Checksum8.Checksums | telegram.py:157-180 | definition of the running (checksum, wchecksum) loop; its closed forms are `ChecksumIsSum` and `WChecksumIsEndAroundCarrySum` |
| Checksum8.ChecksumIsSum | telegram.py:157-180 | the checksum is the sum of all items modulo 256 |
| Checksum8.WChecksumIsEndAroundCarrySum | telegram.py:171-178 | the weighted checksum is the end-around-carry (mod 255, kept in 1..255) sum of all intermediate checksums |
| Checksum8.WChecksumZero | telegram.py:171-178 | the weighted checksum is 0 exactly when every intermediate checksum was 0 |
| Checksum8.CarryStep | telegram.py:175-178 | one "+1 on overflow" step is one end-around-carry addition |
| Checksum8.SingleByteChangeDetected | telegram.py:157-180 | replacing any one byte of the items by a different byte changes the checksum |
| TelegramCodec.FromCode | telegram.py:70-83 | `Command(b)` yields the member whose code is b, and fails only when no member has code b |
| TelegramCodec.FromCodeOfCode | telegram.py:70-83 | every command is recovered from its code, so the codes are distinct |
| TelegramCodec.ExpectedLengths | telegram.py:277-286 | the response length expected for every command, with the ACK/Hello table entries reinterpreted; KeyError for STX, which has no entry |
| TelegramCodec.ExpectedLength | telegram.py:277-286 | definition of the awaited response length; its values are `ExpectedLengths` |
| TelegramCodec.Stuffed | telegram.py:182-188 | definition of STX doubling; its properties are `StuffedLength`, `StuffedIdentity`, `StuffedConcat`, `StuffedBytes` |
| TelegramCodec.StuffedLength | telegram.py:182-188 | stuffing adds one byte per STX in the payload |
| TelegramCodec.StuffedIdentity | telegram.py:182-188 | stuffing leaves a payload unchanged exactly when it holds no STX |
| TelegramCodec.StuffedConcat | telegram.py:182-188 | stuffing distributes over concatenation |
| TelegramCodec.StuffedBytes | telegram.py:182-188 | a stuffed payload is all bytes exactly when the payload is |
| TelegramCodec.ReadRawFrame | telegram.py:190-202 | the default ReadRaw telegram serializes to 02 41 01 FF 00 41 06 |
| TelegramCodec.SealedNoStx | telegram.py:190-202 | a frame whose items and checksums hold no STX is STX followed by them, unstuffed |
| TelegramCodec.CountByteDecidesParameters | telegram.py:145-151 | the count byte is stored as read and is only a switch: a positive count takes the parameters from the frame length, whatever number it says, and the previous parameters play no part; any other count keeps the previous parameters, whatever bytes the frame carries |
| TelegramCodec.Decode | telegram.py:128-155 | definition of what `from_bytes` assigns; its properties are `DecodeFrame`, `CountByteDecidesParameters`, `FirstByteIgnored`, `StuffedHeaderDropped`, `UnknownCommandRejected`, `CorruptedTrailerInvalid` |
| TelegramCodec.FirstByteIgnored | telegram.py:134-139 | the value of the leading byte is never examined |
| TelegramCodec.StuffedHeaderDropped | telegram.py:134-139 | a second STX is dropped and only sets the stuffed marker; otherwise decoding is unchanged |
| TelegramCodec.UnknownCommandRejected | telegram.py:142 | an unknown command byte is a ValueError |
| TelegramCodec.DecodeFrame | telegram.py:128-202 | `from_bytes(serialize())` gives back command, addresses and parameters with `valid` set, whenever the sealed items hold no STX |
| TelegramCodec.CorruptedTrailerInvalid | telegram.py:153-155 | changing either checksum byte of a decodable frame (seven bytes or more, eight when the second byte is STX) changes nothing but `valid`, which can then no longer be True |
| TelegramCodec.Telegram.constructor | telegram.py:108-126 | count is the parameter length; checksums are computed when a command is given and are 0 otherwise; not stuffed, not valid |
| TelegramCodec.Telegram.CalcChecksums | telegram.py:157-180 | the loop returns `Checksum8.Checksums` of the items; TypeError without a command |
| TelegramCodec.Telegram.Stuff | telegram.py:182-188 | the loop returns `Stuffed(payload)` |
| TelegramCodec.Telegram.Serialize | telegram.py:190-202 | the frame of the items exactly when all items are bytes; ValueError otherwise; TypeError without a command |
| TelegramCodec.Telegram.SliceParameters | telegram.py:148-151 | the collected bytes are `body[4:-2]` |
| TelegramCodec.Telegram.FromBytes | telegram.py:128-155 | the object afterwards holds `Decode(raw, old parameters)`; on error, checksums, count, parameters and `valid` are unchanged; the stuffed flag is only ever set |
| TelegramCodec.Telegram.LoadBody | telegram.py:141-155 | the same as `FromBytes`, for the bytes after the STX markers |
| TelegramCodec.Telegram.LoadFields | telegram.py:142-155 | the header fields, the parameters (kept when the count is 0) and the recomputed checksums and `valid` |
| Connector.ReadResponse | telegram.py:266-305 | definition of the bytes `_recv_telegram` collects; its properties are `ReadStuffedFrame`, `TimeoutConsumesAll`, `TruncatedFrameTimesOut` |
| Connector.HuntSkipsJunk | telegram.py:289-291 | bytes before the first STX are skipped |
| Connector.CollectFirstByte | telegram.py:294-302 | the byte after the leading STX is stored, unescaped when it is a stuffed STX, and a NACK there widens the awaited length to 8 |
| Connector.CollectStuffed | telegram.py:294-302 | past the second byte, the reader undoes stuffing exactly |
| Connector.ReadStuffedFrame | telegram.py:277-305 | after noise without STX, a serialized response of the awaited length is read completely with stuffing undone, and the rest of the input is left |
| Connector.ResponseRoundTrip | telegram.py:266-312 | a well-formed response (any command but STX) decodes to the telegram the device sent, with `valid` set |
| Connector.Exchange | telegram.py:248-312 | definition of one request/response as values; its properties are `DeniedCommandWritesNothing`, `BroadcastReadsNothing`, `ResponseRoundTrip` |
| Connector.DeniedCommandWritesNothing | telegram.py:257-259 | a denied command fails with UnsupportedCommand before anything is written or read |
| Connector.BroadcastReadsNothing | telegram.py:261-264 | a broadcast is written and answered with None, reading nothing |
| Connector.TimeoutConsumesAll | telegram.py:288-305 | a read that times out has consumed all input |
| Connector.CollectCutShort | telegram.py:294-305 | the length loop times out when the input stops any byte before the end of what it needed, between a stuffed STX and its escape included |
| Connector.TruncatedFrameTimesOut | telegram.py:278-305 | when a device stops sending anywhere in a well-formed response frame, the read yields None |
| Connector.Signed16RoundTrip | telegram.py:436 | a decoded streaming value is a signed 16-bit integer and encodes back to its two bytes |
| Connector.Signed16OfBytes | telegram.py:436 | every signed 16-bit integer is decoded from its two bytes |
| Connector.PollFrame | telegram.py:424-439 | definition of one streaming poll; its properties are `PollSingleFrame`, `PollDualFrame`, `PollShortInput` |
| Connector.PollSingleFrame | telegram.py:424-439 | a single-channel frame is polled back exactly and the bytes after it are left |
| Connector.PollDualFrame | telegram.py:424-439 | the same for two-channel frames, with the raw five bytes |
| Connector.PollShortInput | telegram.py:433-439 | with fewer bytes than a frame waiting, `(0, None)` is returned and nothing is consumed |
| Connector.StreamingParameters | telegram.py:407-416 | definition of the special-mode parameters; their layout is `StreamingParametersLayout` |
| Connector.StreamingParametersLayout | telegram.py:407-416 | the start parameters are bytes: sub-mode 3, the clamped period, the clamped count big-endian and the channel letter |
| Connector.RawPairsBytes | telegram.py:328-333 | each `get_raw` value has its two parameter bytes as high and low byte |
| Connector.LorenzConnector.constructor | telegram.py:210-238 | mode "undefined", nothing written, the given pending input and denylist |
| Connector.LorenzConnector.ReadByte | telegram.py:291 | one byte from the input, or None on timeout |
| Connector.LorenzConnector.RecvTelegram | telegram.py:266-312 | consumes what `ReadResponse` reads and returns a fresh telegram holding its decoding; None on timeout; KeyError for a command without a table entry |
| Connector.LorenzConnector.SendTelegram | telegram.py:248-264 | output, input and result are those of `Exchange`; the mode is unchanged |
| Connector.LorenzConnector.Hello | telegram.py:314-316 | `Exchange` of a Hello request to addrTo |
| Connector.LorenzConnector.GetStatusShort | telegram.py:336-338 | `Exchange` of a ReadStatusShort request |
| Connector.LorenzConnector.GetStatus | telegram.py:340-342 | `Exchange` of a ReadStatus request |
| Connector.LorenzConnector.RestartDevice | telegram.py:344-346 | `Exchange` of a RestartDevice (0x49) request |
| Connector.LorenzConnector.ZeroAngle | telegram.py:348-350 | `Exchange` of a SetAngleToZero request |
| Connector.LorenzConnector.GetRaw | telegram.py:318-334 | the four 16-bit values of the ReadRaw answer; AttributeError without an answer; IndexError when it is short |
| Connector.LorenzConnector.StartStreaming | telegram.py:396-422 | ValueError for a channel other than A/B/C; otherwise the mode is switched first, then the special-mode request is exchanged; a non-ACK answer gives `ConnectionError(code)` |
| Connector.LorenzConnector.StreamingRecvPoll | telegram.py:424-439 | returns `PollFrame(mode, input)` and consumes the frame |
| Connector.LorenzConnector.StopStreaming | telegram.py:441-447 | three STX bytes written, mode idle, nothing read |
| ConfigBlocks.ReadOnlyBlocks | configBlocks.py:126-190 | header and hardware blocks are read-only and the operation block is not; IDs 0x10, 0x12, 0x13 |
| ConfigBlocks.BEOfBytesBE | configBlocks.py:98-102 | decoding the bytes written for a value that fits in n bytes gives the value back |
| ConfigBlocks.BERange | configBlocks.py:64-69 | the value read from n bytes is below 256^n |
| ConfigBlocks.Populate | configBlocks.py:49-76 | definition of the assignments `from_payload` makes; its properties are `WrongBlockRejected`, `DecodeFieldsError`, `DecodeFieldsValue`, `DecodeAll`, `BlockRoundTrip` |
| ConfigBlocks.DecodeFieldsError | configBlocks.py:60-76 | a field that cannot be read stops `from_payload` with nothing more assigned |
| ConfigBlocks.DecodeFieldsValue | configBlocks.py:60-76 | a readable field is assigned before the remaining ones |
| ConfigBlocks.WrongBlockRejected | configBlocks.py:55-57 | a payload for another block raises BadBlockID with nothing assigned |
| ConfigBlocks.Checksums16Sums | configBlocks.py:28-47 | the checksum is the payload sum modulo 65536 and the weighted checksum the sum of the running checksums modulo 65536, with no carry |
| ConfigBlocks.StatorHeaderValid | configBlocks.py:140-145 | the header fields lie inside the 27-byte buffer, do not overlap and are distinctly named |
| ConfigBlocks.StatorHardwareValid | configBlocks.py:161-183 | likewise for the hardware block, whose table keys are distinct bytes |
| ConfigBlocks.StatorOperationValid | configBlocks.py:204-233 | likewise for the operation block and its three tables |
| ConfigBlocks.EncodeError | configBlocks.py:91-101 | a value can be written exactly when it is an integer or a table value |
| ConfigBlocks.FieldRoundTrip | configBlocks.py:64-101 | decoding the bytes written for a value restores it exactly when `RoundTrips` holds |
| ConfigBlocks.PulsesZeroBecomesFF | configBlocks.py:165-182 | raw 0x00 reads as None, and None is written back as 0xFF |
| ConfigBlocks.PulsesKeyValueLost | configBlocks.py:165-182 | the integer 7 is written as raw 7 and read back as 360 |
| ConfigBlocks.KeyValueLost | configBlocks.py:71-101 | an integer equal to a table key but not a table value never survives in a one-byte field |
| ConfigBlocks.GenPayloadSpec | configBlocks.py:78-104 | definition of `gen_payload`; its properties are `FillOk`, `FillPlaces`, `GenPayloadLayout`, `GenPayloadBytes` |
| ConfigBlocks.FillOk | configBlocks.py:87-102 | payload generation succeeds exactly when every field is writable |
| ConfigBlocks.FillPlaces | configBlocks.py:87-102 | a successful fill writes each field's bytes at its range and nothing elsewhere |
| ConfigBlocks.GenPayloadLayout | configBlocks.py:78-104 | `gen_payload`: 27 entries, the ID first, each field's bytes at its range, zeros elsewhere; it fails exactly when some field is not writable |
| ConfigBlocks.GenPayloadBytes | configBlocks.py:78-104 | every element of a generated payload is a byte |
| ConfigBlocks.DecodeAll | configBlocks.py:60-76 | decoding a valid layout from 27 bytes or more (a ReadConfig response carries 32) never fails and reads each field from its own range |
| ConfigBlocks.BlockRoundTrip | configBlocks.py:49-104 | `from_payload([BLOCK] + gen_payload())` assigns every field, in order, and restores a field exactly when `RoundTrips` holds |
| ConfigBlocks.AttributesRestored | configBlocks.py:49-110 | after that round trip, an attribute holds its former value exactly when `RoundTrips` holds |
| ConfigBlocks.SerializeSpec | configBlocks.py:112-124 | definition of `serialize`; its properties are `SerializeShape` and `ReadOnlyRefused` |
| ConfigBlocks.SerializeShape | configBlocks.py:112-124 | `serialize` of a writable block is 31 bytes: the payload, then the two checksums big-endian |
| ConfigBlocks.ReadOnlyRefused | configBlocks.py:118-119 | a read-only block never serializes |
| ConfigBlocks.BlocksHaveNoChangedAttribute | configBlocks.py:126-233 | none of the three blocks declares an attribute named `changed`, so each is a layout a block object accepts, with its flag kept apart from its attributes |
| ConfigBlocks.ConfigBlock.constructor | configBlocks.py:186-201 | every declared attribute starts as None, and a block with parameters starts out changed |
| ConfigBlocks.ConfigBlock.SetAttr | configBlocks.py:106-110 | assigning a declared parameter marks the block changed, and any other name except `changed` leaves the flag as it was; in both cases the attribute takes the value. Assigning `changed` itself sets the flag to the value's truth, True or False, and leaves the other attributes alone |
| ConfigBlocks.ConfigBlock.FromPayload | configBlocks.py:49-76 | the attributes become `Apply(old, Populate(...))`; changed is set when anything was assigned; the error that stopped it, if any |
| ConfigBlocks.ConfigBlock.LoadField | configBlocks.py:64-76 | one field read and translated through its table, then assigned; nothing changes on error |
| ConfigBlocks.ConfigBlock.ReadField | configBlocks.py:64-69 | the big-endian value of the field's bytes; IndexError past the payload |
| ConfigBlocks.ConfigBlock.WriteField | configBlocks.py:98-102 | the array afterwards is the old one with the value's big-endian bytes spliced in at the field's range |
| ConfigBlocks.ConfigBlock.GenPayload | configBlocks.py:78-104 | returns `GenPayloadSpec` of the layout and attributes |
| ConfigBlocks.ConfigBlock.CalcChecksums | configBlocks.py:28-47 | the two 16-bit sums as big-endian byte pairs |
| ConfigBlocks.ConfigBlock.Serialize | configBlocks.py:112-124 | AttributeError when read-only, ValueError when a payload element is not a byte, otherwise payload plus checksum words |
| Lcts.CleanTg | LCTSfunctions.py:346-360 | definition of `CleanTg`, IndexError when nothing is left to index; its properties are `CleanTgShape` and `CleanDoubleStx` |
| Lcts.CleanTgShape | LCTSfunctions.py:346-360 | the result is the input without its CR LF trailer exactly when it had one, and without its leading STX bytes up to two; fewer than two are cut only when the next byte is not STX |
| Lcts.CleanDoubleStx | LCTSfunctions.py:346-360 | a double-STX frame without a CR LF trailer is cleaned to its body |
| Lcts.CalcChecksums | LCTSfunctions.py:380-402 | the loop returns the checksum pair of `Checksum8` |
| Lcts.CheckChecksums | LCTSfunctions.py:404-417 | true exactly when there are two trailing bytes and they are the checksum pair of the rest |
| Lcts.SealedPasses | LCTSfunctions.py:404-417 | items followed by their checksum pair pass the check |
| Lcts.CorruptedItemFails | LCTSfunctions.py:404-417 | changing any one byte of the items makes the check fail |
| Lcts.ReceiveTg | LCTSfunctions.py:480-504 | definition of `ReceiveTg`; its round trip with the builders is `ReceiveBuilt` |
| Lcts.BuildTelegram | LCTSfunctions.py:527-532 | definition of the frame every builder assembles; its shape is `BuildShape` |
| Lcts.Hello | LCTSfunctions.py:508-533 | the Hello request; its bytes are `HelloFrame` |
| Lcts.ReadRaw | LCTSfunctions.py:535-559 | the ReadRaw request; its bytes are `ReadRawFrame` |
| Lcts.ReadStatus | LCTSfunctions.py:561-585 | the ReadStatus request; its header is in `RequestHeaders` |
| Lcts.ReadStatusShort | LCTSfunctions.py:587-609 | the ReadStatusShort request; its header is in `RequestHeaders` |
| Lcts.ReadConfig | LCTSfunctions.py:611-634 | the ReadConfig request; its contents and its ValueError are `ReadConfigBlock` |
| Lcts.WriteFullStroke | LCTSfunctions.py:664-687 | the WriteFullStroke request; its parameter is `WriteFullStrokeParameter` |
| Lcts.RestartDevice | LCTSfunctions.py:689-711 | the RestartDevice request with code 0x4B; its header is in `RequestHeaders` |
| Lcts.WriteConfig | LCTSfunctions.py:636-662 | the appended telegram is `BuildTelegram` of the parameters; ValueError unless all of it is bytes |
| Lcts.BuildShape | LCTSfunctions.py:506-711 | every builder frame: 8+n bytes, two STX, the header, the parameters unstuffed, and a trailer that `CheckChecksums` accepts |
| Lcts.EmptyRequestFrame | LCTSfunctions.py:529-532 | a request without parameters is the header followed by its checksum pair |
| Lcts.HelloFrame | LCTSfunctions.py:508-533 | the Hello request is 02 02 40 00 01 00 41 03 |
| Lcts.ReadRawFrame | LCTSfunctions.py:535-559 | the ReadRaw request is 02 02 41 01 FF 00 41 06 |
| Lcts.RequestHeaders | LCTSfunctions.py:506-711 | the headers of Hello, ReadRaw, ReadStatus, ReadStatusShort and RestartDevice (0x4B), eight bytes each |
| Lcts.ReadConfigBlock | LCTSfunctions.py:611-634 | `ReadConfig` succeeds exactly for a byte block number and carries it as its one parameter |
| Lcts.WriteFullStrokeParameter | LCTSfunctions.py:664-687 | one parameter, 1 for on and 0 for off |
| Lcts.ReceiveBuilt | LCTSfunctions.py:480-504 | `ReceiveTg` of any built request gives back its command and parameters, unless its checksum pair is CR LF |
| Lcts.HexDigits | LCTSfunctions.py:376 | `hex` writes at least one digit |
| Lcts.HexDigitsValue | LCTSfunctions.py:376 | the digits of `hex(n)` are hexadecimal digits whose value is n |
| Lcts.ParseHexOfHex | LCTSfunctions.py:376 | `int(hex(n), 16) == n` for every integer n, negative ones included |
| Lcts.FirstString | LCTSfunctions.py:374-378 | the index of the first element `hex` rejects, or the length |
| Lcts.ToHex | LCTSfunctions.py:362-378 | elements are replaced in place by their `hex` up to the first string, which is a TypeError; the rest is untouched |
| Lcts.HexAllParses | LCTSfunctions.py:362-378 | every converted element parses back to its integer |
| Lcts.GetRaw | LCTSfunctions.py:448-478 | definition of `GetRaw` as written; its values are `GetRawValues` and `Concat16Value`, its flaw `GetRawLowByteUnpadded` |
| Lcts.GetRawCorrected | LCTSfunctions.py:448-478 | `GetRaw` with each value read as `hi * 256 + lo`; its property is `GetRawCorrectedInjective`, its agreement with the original `UnpaddedAgrees` |
| Lcts.Concat16Digits | LCTSfunctions.py:469 | `int(hex(hi) + hex(lo)[2:], 16)` reads the digits of both, in order |
| Lcts.Concat16Value | LCTSfunctions.py:469-472 | that concatenation of two bytes equals `Unpadded(hi, lo)`: the low byte counts as one digit when below 0x10 |
| Lcts.GetRawValues | LCTSfunctions.py:448-478 | the five values of a ReadRaw response with at least nine parameters |
| Lcts.GetRawLowByteUnpadded | LCTSfunctions.py:469-472 | as written, bytes 01 05 read as 21, the same as bytes 00 15, while the corrected reading is 261 |
| Lcts.GetRawCorrectedInjective | LCTSfunctions.py:448-478 | the corrected values are 16-bit and give back both of their bytes |
| Lcts.UnpaddedAgrees | LCTSfunctions.py:469-472 | as-written and corrected values agree exactly when the low byte is at least 0x10 or the high byte is 0 |
| Lcts.Transformed | LCTSfunctions.py:433-446 | the transformed list has the input's length |
| Lcts.TransformData | LCTSfunctions.py:419-446 | the array afterwards is `Transformed(old)`; an empty list is an UnboundLocalError; otherwise the overload flag says whether a calibrated channel reached 25000 |
| Lcts.RawChannelTwosComplement | LCTSfunctions.py:436-439 | in the raw channels a 16-bit reading becomes its two's-complement value |
| Lcts.CalibratedChannelClamped | LCTSfunctions.py:440-442 | in the calibrated channels the result is within (-25000, 25000], and an overload of either sign reads +25000 |

## Left out

- Serial I/O is not modelled as such. The port is a sequence of pending
  bytes and a sequence of written ones. Timeouts, baud rate, port opening,
  `__enter__`/`__exit__` and the `in_waiting` count are not modelled:
  "waiting bytes" is the pending sequence.
- Connector.LorenzConnector.StartStreaming takes the sample period
  already converted. `int(1/sample_rate // 0.0002)` is floating point.
  The clamp that follows is modelled. Its channel is a single `char`, so
  the ValueError Python raises for an empty or multi-character channel
  string is not expressible.
- `read_config`, `write_config` and `_dump_all_blocks` iterate over a
  `Config` collection. That collection is not part of this model, and
  `_dump_all_blocks` also writes a file.
- The `Torquimeter` class and `SendTelegram`/`ReadFrom` in
  `LCTSfunctions.py` only do serial I/O.
- GotoSpecialMode has a command constant in `LCTSfunctions.py` but no
  builder there, so only the constant is modelled.
- `UNSUPPORTED_COMMANDS` is empty in the source. The denylist is a
  constructor parameter of `LorenzConnector`, so that both branches are
  modelled.
- Lcts.ParseHex does not accept the underscores or surrounding whitespace
  that Python's `int(s, 16)` allows. Only strings produced by `hex` are
  parsed here.
- Lcts.GetRaw takes byte parameters, as `ReceiveTg` produces. The
  TypeError that `hex` raises on other element types is modelled in
  `ToHex` only.
- Telegram parameter aliasing is not modelled. A Python `Telegram` keeps a
  reference to the caller's parameter list, so a later change to that list
  would show up in the telegram. The model copies the parameters as a
  sequence. `ToHex` and `TransformData` do model that their result is the
  array they were given.
- `ReceiveTg` prints a debugging line on a bad checksum. The print is left
  out; the None result is modelled.
- `from_bytes` partially assigns fields before raising IndexError on a short
  frame. TelegramCodec.Telegram.FromBytes states only which fields are
  unchanged on error, not the partial assignments to command and addresses.
- The `Error` enumeration is modelled only as the set of codes that
  `Error(code)` accepts (`Connector.IsErrorCode`). Its member names are
  left out.
- ConfigBlock's base `__init__` entries (checksum, wchecksum, _ID) are never
  added to a subclass's `_PARAMETERS`, because the dataclass initialiser
  does not call it. The model's layouts therefore hold only the declared
  fields.
- ConfigBlocks.ConfigBlock.SetAttr: assignments to `READONLY`, `BLOCK` and
  `_ID` are not modelled. They are dataclass fields in Python, but the model
  keeps the layout as a constant, so such an assignment would not change what
  `serialize` and `from_payload` do. Nothing in the source assigns them.

## Findings

| source | as written | input that shows it | evidently intended | confidence | as-written member | corrected member |
|---|---|---|---|---|---|---|
| LCTSfunctions.py:469-472 | each 16-bit reading is `int(hex(hi) + hex(lo)[2:], 16)`, and `hex` does not zero-pad the low byte | a ReadRaw response whose first parameters are 0x01 0x05 gives channel 0 = 0x15 = 21, the same as 0x00 0x15 | `hi * 256 + lo`, as `get_raw` in telegram.py computes | not executed | Lcts.GetRawLowByteUnpadded | Lcts.GetRawCorrectedInjective |
