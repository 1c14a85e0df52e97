# Kipp & Zonen SMP pyranometer driver, modelled in Dafny

This project models the CSTBox driver for the Kipp & Zonen SMP smart
pyranometer (`lib/python/pycstbox/knz/smp.py`) and proves what it does. It has five parts.

- **Register map** (`registers.dfy`, module `Registers`):
  - the input registers with their addresses and word widths;
  - the error-code register and the clear-error coil;
  - the operational mode codes;
  - `ALL_INPUTS_SIZE`, the width of the whole input block.
- **Status flags** (`status_flags.dfy`, module `Status`):
  - the device's status word and its eight named bits;
  - `flags_set()` and `is_set()`;
  - the textual rendering `__str__`, as written and as evidently intended.
- **Poll decode** (`wire.dfy`, module `Wire`):
  - `struct.unpack('>HHhhhhh', …)` over the 14 bytes of registers 0x02 to 0x08;
  - each register is a big-endian word, the encoding of section 4.2 of the Modbus Application Protocol Specification V1.1b3;
  - a short or long reply makes the decode fail with `struct.error`.
- **Scaling** (`scaling.dfy`, module `Scaling`):
  - irradiance is `sensor1_data / math.pow(10, scale_factor)` and body temperature is `temp / 10.0`, both over exact reals;
  - the model includes the two exceptions that extreme scale factors raise.
- **Instrument** (`instrument.dfy`, module `Smp`):
  - class `SMPInstrument` holds the first-poll latch and the calls made so far to the Modbus transport, in order;
  - `Reset` appends the coil write;
  - `Poll` appends the calls of one poll cycle and returns the measurement, `None`, or the exception the poll raises;
  - the specification functions `PollCalls` and `PollOutcome` state a poll's effect, and lemmas derive its properties from them, over one poll and over a whole session.

The transport is observed, not simulated. Each `write_bit`, `read_string` and `read_register` call appears as an element of `calls`. The bytes the device answers to the poll read are a parameter of `Poll`.

The `poll` docstring (smp.py:156-157) differs from the code, and the model follows the code. The docstring says a poll returns `None` on error status. The code resets the device and then returns the measurement it read before the reset. `Smp.FlaggedReadingResetsAndMeasures` states this.

Extreme scale factors make a poll raise. `math.pow(10, scale_factor)` raises OverflowError for a scale factor above 308. For one below -323 it returns 0.0, so the division raises ZeroDivisionError. `Scaling.IrradianceOf` and `Smp.ExtremeScaleRaises` state both.

## Model

| member | source | states |
|---|---|---|
| Registers.AllInputsSize | lib/python/pycstbox/knz/smp.py:64-82 | `ALL_INPUTS_SIZE`, the sum of the widths of the sixteen listed input registers, is 20 |
| Registers.AllInputsComposition | lib/python/pycstbox/knz/smp.py:45-82 | the input list has 16 registers: twelve one-word and four two-word; the total is the one-word count plus twice the two-word count |
| Registers.SplitWidths | lib/python/pycstbox/knz/smp.py:64-82 | the `reduce` sum of widths, and the count of registers of each width, add up over two concatenated lists |
| Registers.TotalSize | lib/python/pycstbox/knz/smp.py:64-82 | the `reduce` sum of widths of a list of one- and two-word registers is its one-word count plus twice its two-word count |
| Registers.InputMapDisjoint | lib/python/pycstbox/knz/smp.py:45-62 | the input registers and then the error-code register occupy pairwise disjoint word ranges in ascending order; their addresses are pairwise distinct; each is at least one word wide |
| Registers.AdjacentToPairwise | lib/python/pycstbox/knz/smp.py:45-62 | registers that each end before the next begins are pairwise disjoint |
| Registers.PollBlockRegisters | lib/python/pycstbox/knz/smp.py:47-53 | the 7 words a poll reads from 0x02 are the operational mode to body temperature registers, one word each at consecutive addresses |
| Status.NamesAreDistinct | lib/python/pycstbox/knz/smp.py:99-102 | there are eight flag names and no two are equal |
| Status.FlagConstantsName | lib/python/pycstbox/knz/smp.py:99-104 | each flag constant indexes its own name; `ERROR` is 3 and `UPDATE` is 7 |
| Status.StatusFlags.SetBitsFrom | lib/python/pycstbox/knz/smp.py:110-113 | the bits from `i` on that are set, each once, in strictly ascending order, and bit `k` is listed exactly when it is set |
| Status.StatusFlags.FlagsSet | lib/python/pycstbox/knz/smp.py:109-113 | `flags_set()` lists only flag names, in strictly ascending bit order, and lists `names[k]` exactly when bit `k` is set |
| Status.NamesOfAscendingBits | lib/python/pycstbox/knz/smp.py:110-113 | mapping ascending bit indices to their names gives names in ascending bit order, and a name is present exactly when its bit index is |
| Status.AscendingUnique | lib/python/pycstbox/knz/smp.py:110-113 | two lists that are both in ascending name order and hold the same names are equal |
| Status.FlagsSetCharacterised | lib/python/pycstbox/knz/smp.py:109-113 | any list of the set flags' names in ascending bit order is `flags_set()`: the order and the contents determine it |
| Status.StatusFlags.IsSet | lib/python/pycstbox/knz/smp.py:115-116 | `is_set(flag)` never holds for a flag beyond the sixteenth bit, nor for a clear status word |
| Status.IsSetArithmetic | lib/python/pycstbox/knz/smp.py:115-116 | `is_set(k)` holds exactly when the binary digit of weight 2^k of the status word is 1 |
| Status.IsSetIffListed | lib/python/pycstbox/knz/smp.py:109-116 | for each flag index 0..7, `is_set(flag)` holds exactly when `names[flag]` is in `flags_set()` |
| Status.SetBitsAgree | lib/python/pycstbox/knz/smp.py:110-113 | two status words that agree on bits `i` to 7 set the same bits from `i` on |
| Status.HighBitsIgnored | lib/python/pycstbox/knz/smp.py:109-113 | bits 8 to 15 of the status word never change `flags_set()` |
| Status.FlagsSetOfClearWord | lib/python/pycstbox/knz/smp.py:109-113 | `StatusFlags(0).flags_set()` is empty |
| Status.FlagsSetSingleFlag | lib/python/pycstbox/knz/smp.py:109-113 | a status word of 0x01 lists `["signal"]` |
| Status.FlagsSetTwoFlags | lib/python/pycstbox/knz/smp.py:109-113 | a status word of 0x81 lists `["signal", "update"]`, in bit order |
| Status.UnnamedBitsListNothing | lib/python/pycstbox/knz/smp.py:109-113 | the non-zero status word 0x0100 lists no flag |
| Status.StrAsWritten | lib/python/pycstbox/knz/smp.py:118-119 | as written, `__str__` fails (TypeError: the bound method is not iterable) for every status word |
| Status.SplitJoin | lib/python/pycstbox/knz/smp.py:118-119 | splitting a comma join gives back the pieces when no piece contains a comma |
| Status.Render | lib/python/pycstbox/knz/smp.py:118-119 | the intended rendering, `','.join(self.flags_set())`, is empty for a word with no set flag; otherwise it splits on commas into exactly `flags_set()` |
| Status.StrOfErrorFlag | lib/python/pycstbox/knz/smp.py:118-119 | for the status word 0x08, `__str__` as written fails, where the intended rendering is `"error"` |
| Wire.WordBytes | lib/python/pycstbox/knz/smp.py:164-167 | a word's two bytes, high-order first, recombine big-endian into the word |
| Wire.WordBytesOfBigEndian | lib/python/pycstbox/knz/smp.py:164-167 | the bytes of the big-endian word of `hi`, `lo` are `hi`, `lo` |
| Wire.ToSigned | lib/python/pycstbox/knz/smp.py:164-167 | the `h` reading of a word is the word or the word minus 65536, within -32768..32767 |
| Wire.ToUnsigned | lib/python/pycstbox/knz/smp.py:164-167 | the two's-complement word of a signed value reads back as that value |
| Wire.UnsignedOfSigned | lib/python/pycstbox/knz/smp.py:164-167 | two's complement is a bijection; a word reads negative exactly when its top bit is set |
| Wire.DecodeField | lib/python/pycstbox/knz/smp.py:164-167 | an `H` field is in 0..65535 and an `h` field in -32768..32767 |
| Wire.EncodeField | lib/python/pycstbox/knz/smp.py:164-167 | encoding a value of a field code gives two bytes that decode to that value |
| Wire.EncodeDecodeField | lib/python/pycstbox/knz/smp.py:164-167 | re-encoding a decoded field gives back its two bytes |
| Wire.UnpackFieldsAt | lib/python/pycstbox/knz/smp.py:164-167 | field `k` is decoded from bytes `2k` (high) and `2k+1` (low) by its own format code |
| Wire.Unpack | lib/python/pycstbox/knz/smp.py:164-167 | `struct.unpack` succeeds exactly when the buffer has two bytes per field, gives one in-range value per field, and otherwise raises `struct.error`; the model's `LengthMismatch` error records the expected length and also the actual one |
| Wire.Pack | lib/python/pycstbox/knz/smp.py:164-167 | packing gives two bytes per field |
| Wire.UnpackPack | lib/python/pycstbox/knz/smp.py:164-167 | unpacking packed values gives back the values |
| Wire.PackUnpack | lib/python/pycstbox/knz/smp.py:164-167 | packing unpacked values gives back the bytes |
| Wire.PackFrame | lib/python/pycstbox/knz/smp.py:164-167 | a frame encodes to the 14 bytes of a 7-word reply |
| Wire.UnpackFrame | lib/python/pycstbox/knz/smp.py:164-167 | the poll reply decodes exactly when it is 14 bytes long, and otherwise raises `struct.error`; the model's `LengthMismatch` error records the expected 14 bytes and also the actual length |
| Wire.UnpackPackFrame | lib/python/pycstbox/knz/smp.py:164-167 | decoding the reply that encodes a frame gives back the frame, its two unused words included |
| Wire.PackUnpackFrame | lib/python/pycstbox/knz/smp.py:164-167 | encoding the frame decoded from a 14-byte reply gives back the reply |
| Wire.UnpackFrameFields | lib/python/pycstbox/knz/smp.py:164-167 | operational mode and status are the unsigned big-endian words of registers 0x02 and 0x03; scale, sensor-1 data, raw sensor-1 data, standard deviation and temperature are the two's-complement words of 0x04 to 0x08 |
| Scaling.Pow10Nat | lib/python/pycstbox/knz/smp.py:185 | a natural power of ten is at least 1 |
| Scaling.Pow10 | lib/python/pycstbox/knz/smp.py:185 | every integer power of ten is positive |
| Scaling.Pow10Step | lib/python/pycstbox/knz/smp.py:185 | raising the exponent by one multiplies the power by ten |
| Scaling.Pow10Negate | lib/python/pycstbox/knz/smp.py:185 | ten to the opposite exponent is the reciprocal |
| Scaling.MathPow10 | lib/python/pycstbox/knz/smp.py:185 | `math.pow(10, e)` raises OverflowError exactly when e > 308, and returns 0.0 exactly when e < -323 |
| Scaling.FloatDivide | lib/python/pycstbox/knz/smp.py:185 | float division raises ZeroDivisionError exactly when the divisor is 0.0 |
| Scaling.Irradiance | lib/python/pycstbox/knz/smp.py:185 | the irradiance times ten to the scale factor is the sensor-1 reading |
| Scaling.IrradianceOf | lib/python/pycstbox/knz/smp.py:185 | the irradiance is computed exactly when -323 <= scale <= 308, and is then the exact quotient; a larger scale raises OverflowError and a smaller one ZeroDivisionError |
| Scaling.IrradianceShiftsDecimals | lib/python/pycstbox/knz/smp.py:185 | the irradiance is the reading times 10^-scale; it has the reading's sign, is zero exactly for a zero reading, and is the reading itself at scale 0 |
| Scaling.IrradianceRescaled | lib/python/pycstbox/knz/smp.py:185 | one more step of scale divides the irradiance by ten |
| Scaling.BodyTemperature | lib/python/pycstbox/knz/smp.py:186 | the temperature times ten is the raw word |
| Smp.SMPInstrument.constructor | lib/python/pycstbox/knz/smp.py:141-146 | a new instrument keeps its port and unit id, has its first-poll latch set, and has made no call |
| Smp.SMPInstrument.Reset | lib/python/pycstbox/knz/smp.py:148-150 | `reset` appends exactly one `write_bit(0x0A, 1)` to the calls |
| Smp.SMPInstrument.Poll | lib/python/pycstbox/knz/smp.py:152-187 | `poll` clears the latch, appends exactly `PollCalls(latch, decoded reply)` to the calls, and returns `PollOutcome(decoded reply)` |
| Smp.Reaction | lib/python/pycstbox/knz/smp.py:169-182 | after the read, a poll makes no call exactly for a normal reading; otherwise its calls are resets and error-code reads only, end with a reset, and include the error-code read exactly in normal mode with the error flag set |
| Smp.PollCalls | lib/python/pycstbox/knz/smp.py:159-187 | a poll's calls start with a reset exactly on the first poll, then the read; nothing follows the read of a reply that does not unpack |
| Smp.Outcome | lib/python/pycstbox/knz/smp.py:169-187 | a poll of a decoded frame returns `None` exactly outside normal mode, raises an arithmetic error exactly in normal mode with a scale factor outside -323..308, and otherwise returns the irradiance and body temperature of the frame |
| Smp.PollOutcome | lib/python/pycstbox/knz/smp.py:164-187 | a poll raises `struct.error` exactly when the reply does not unpack, carrying the unpacking error, and returns a measurement only for a frame in normal mode |
| Smp.FirstPollResetsFirst | lib/python/pycstbox/knz/smp.py:159-166 | with the latch set, a poll's calls are one reset followed by the calls of a poll without it; the reset comes before the read |
| Smp.MalformedReplyFails | lib/python/pycstbox/knz/smp.py:164-167 | a reply that is not 14 bytes long makes the poll raise `struct.error` right after the read, with no call besides the first-poll reset |
| Smp.NotNormalModeResets | lib/python/pycstbox/knz/smp.py:169-172 | outside normal mode, a poll reads, resets once, does not read the error code, and returns `None` |
| Smp.CleanReadingMeasures | lib/python/pycstbox/knz/smp.py:174-187 | in normal mode with a clear status word, a poll makes no call after the read and returns `sensor1 * 10^-scale` and `temp / 10` |
| Smp.ExtremeScaleRaises | lib/python/pycstbox/knz/smp.py:184-187 | in normal mode, a scale factor above 308 raises OverflowError and one below -323 raises ZeroDivisionError |
| Smp.ErrorBitArithmetic | lib/python/pycstbox/knz/smp.py:177 | the error flag is bit 3 of the status word |
| Smp.FlaggedReadingResetsAndMeasures | lib/python/pycstbox/knz/smp.py:174-187 | in normal mode with a non-zero status, the calls after the read are the error-code read exactly when the error flag is set, then one reset, last; the outcome is the one the clear-status frame would give |
| Smp.OccurrencesAppend | lib/python/pycstbox/knz/smp.py:152-187 | counts of a call add up over concatenated call sequences |
| Smp.ReactionCounts | lib/python/pycstbox/knz/smp.py:169-182 | after the read, a poll resets once exactly for an anomalous reading, and reads the error code once exactly in normal mode with the error flag set |
| Smp.PollResetCount | lib/python/pycstbox/knz/smp.py:159-182 | a poll resets once for the latch plus once for an anomalous reading, and reads the error code once exactly in normal mode with the error flag set |
| Smp.PollReadsOnce | lib/python/pycstbox/knz/smp.py:164-167 | every poll reads the input block exactly once, whatever the reply |
| Smp.UnusedWordsIgnored | lib/python/pycstbox/knz/smp.py:164-167 | the raw sensor-1 and standard-deviation words change neither the calls nor the outcome of a poll |
| Smp.NormalReadingScenario | lib/python/pycstbox/knz/smp.py:159-187 | a first poll of opmode 1, status 0, scale 0, sensor-1 500 and temperature 205 resets, reads, and returns 500.0 W/m2 and 20.5 degrees C |
| Smp.ErrorModeScenario | lib/python/pycstbox/knz/smp.py:169-172 | a device in error mode (5) is reset and yields `None` |
| Smp.RunCalls | lib/python/pycstbox/knz/smp.py:159-187 | the calls of a run of polls read the input block once per poll |
| Smp.LaterPollsResetOnAnomaliesOnly | lib/python/pycstbox/knz/smp.py:159-182 | after the first poll, a run of polls resets exactly once per anomalous reading; the first-poll reset is never repeated |
| Smp.SessionStartsWithReset | lib/python/pycstbox/knz/smp.py:159-162 | the calls of a fresh session are one reset followed by the calls the same polls make once the latch is clear |
| Smp.SessionResets | lib/python/pycstbox/knz/smp.py:159-182 | a fresh session resets once before anything else, and from then on only for anomalous readings |
| Smp.PollTwice | lib/python/pycstbox/knz/smp.py:141-187 | two polls on a new instrument make exactly the calls `RunCalls` gives for their two replies, and each returns the outcome of its own reply |

## Left out

- The Modbus RTU transport (`read_string`, `read_register`, `write_bit` of the base class `RTUModbusHWDevice`): serial I/O, framing and CRC are not modelled. Calls are recorded in order. The reply bytes are a parameter of `Poll`. Transport exceptions, which propagate out of `poll` uncaught, are not modelled.
- Smp.SMPInstrument.Poll: the value of the error code read from 0x1A is only logged, so it is not modelled; only the read itself is recorded.
- Smp.SMPInstrument.constructor: `_first_poll` is initialised by the base class `RTUModbusHWDevice`, which is not part of this model. The model takes it as set on construction, as its name and its use on the first poll imply.
- Smp.SMPInstrument.constructor: takes the unit id as an integer. The `int(unit_id)` conversion at smp.py:146 is not modelled. It passes an integer through, truncates a float, converts a numeric string, and raises ValueError for a non-numeric string and TypeError for a value such as None.
- Logging (`log_info`, `log_warn`, `log_error`) has no bearing on what a poll does or returns. The `%s` formatting of the status flags in the log call is not modelled. The logging module reports the formatting error itself and does not propagate it.
- Scaling.Irradiance: computed over exact reals. The rounding of the double-precision `math.pow` and `/` is not modelled. Only their exceptions for extreme exponents are (`Scaling.MathPow10`, `Scaling.FloatDivide`). A finite quotient that overflows to infinity (a large reading at a scale factor near -323) is computed exactly.
- Scaling.BodyTemperature: `temp / 10.0` is computed over exact reals, without double rounding.
- Status.StatusFlags.IsSet: the status word is the 16-bit value that the `H` decode produces. Python's unbounded integers and the ValueError of a negative shift count are outside that range, since flag indices are natural numbers.
- `lib/python/pycstbox/hal/drivers/knz.py` (the HAL wrapper that only constructs an `SMPInstrument`) and `lib/python/pycstbox/knz/__init__.py` (the static device-type name table) are not part of this model; neither holds decode or poll logic.
- The `OutputValues` named tuple is modelled as the `Measurement` datatype. The coupling of its item names to the device metadata files is not modelled.

## Findings

| source | as written | input that shows it | evidently intended | confidence | as-written member | corrected member |
|---|---|---|---|---|---|---|
| lib/python/pycstbox/knz/smp.py:118-119 | `','.join(self.flags_set)` passes the bound method, not its result, so `str()` of any status flags raises TypeError | `str(StatusFlags(0x08))` | `','.join(self.flags_set())`: the set flag names joined by commas, empty for no set flag | high, not executed | Status.StrAsWritten | Status.Render |
