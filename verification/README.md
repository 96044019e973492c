# MPU6050 driver core: a verified Dafny model

This project models the integer core of the MPU6050 driver in
`mbed/MPU6050.cpp`. The MPU6050 is a 6-axis inertial sensor: a 3-axis
accelerometer, a 3-axis gyroscope and a temperature sensor, read over I2C.
The model covers three parts of the driver.

- **Raw sample decode** (`measure_i`, and the integer stage of `measure_f`).
  Each reader selects output register 0x3B (ACCEL_XOUT_H) and burst-reads 14
  bytes. It then decodes seven big-endian byte pairs into int16_t channels in
  this order: accel X/Y/Z, temperature, gyro X/Y/Z. Module `Measure`.
- **Write-and-verify retry** (`setreg`). Each attempt writes (register,
  value), reads the register back, and stops at the first match. The loop
  gives up after 20 attempts. It returns `true` to mean failure. Module
  `SetReg`.
- **Startup** (the constructor). It picks the sensitivities for the
  build-time ranges GRANGE and ARANGE. It then issues four `setreg` calls, in
  a fixed order, and ignores their results. Module `Startup`.

The C integer semantics are spelled out in module `CInt`. A byte is 0..255,
because plain `char` is unsigned on the ARM mbed target. `int16_t` stores are
modular (`Wrap16`). C's `|` on 32-bit `int` is defined bit by bit
(`BitOr`), so sign extension can be reasoned about. The bus is not
executed. It is given as data: `burst` is the 14 bytes a burst read
delivered, and `readBacks[k]` is the byte that attempt k of `setreg` reads
back. Module `Bus` holds the device address 0xD0 and the shape of a
transfer.

The model follows the code in three places a reader might not expect:

- The constructor drops every `setreg` failure flag. No error stops startup.
- The I2C transfer results are never checked, so the model has no transport
  error.
- `setreg` reports `true` for failure.

## Model

| member | source | states |
|---|---|---|
| CInt.Wrap16 | mbed/MPU6050.cpp:34-40 | storing an int into int16_t keeps its residue modulo 2^16, and leaves values already in int16 range unchanged |
| CInt.BitOr | mbed/MPU6050.cpp:34-40 | C's `\|` on int: the result's 32-bit pattern has a bit set exactly where either operand's pattern does |
| CInt.OrLowByteIsSum | mbed/MPU6050.cpp:34-40 | C's `a \| lo` on an int whose low byte is clear and an octet 0..255 equals a + lo |
| CInt.OrNegativeByteSwallows | mbed/MPU6050.cpp:34-40 | C's `a \| s` on an int whose low byte is clear and a sign-extended negative octet is s: the sign bits overwrite everything a held |
| Measure.Word | mbed/MPU6050.cpp:34-40 | the channel value of a byte pair is the int16 whose 16-bit pattern is hi*256 + lo |
| Measure.WordIsShiftOr | mbed/MPU6050.cpp:34-40 | the driver's `(hi<<8)\|lo`, with unsigned `char` operands stored into int16_t, is exactly that big-endian word |
| Measure.Decode | mbed/MPU6050.cpp:34-40 | for every channel i in 0..6, channel i is the two's-complement int16 of bytes[2i]*256 + bytes[2i+1], so it lies in -32768..32767 |
| Measure.MeasureI | mbed/MPU6050.cpp:26-43 | measure_i writes register 0x3B to device 0xD0, reads 2 x 7 = 14 bytes, and returns the seven pairwise-decoded channels |
| Measure.MeasureFRaw | mbed/MPU6050.cpp:46-61 | measure_f's integer stage issues the same select and 14-byte read and decodes each channel the same way |
| Measure.MeasureFDecodesAsMeasureI | mbed/MPU6050.cpp:52-61 | on the same burst, measure_f's integer stage gives the same transfers and the same int16 array as measure_i |
| Measure.WordOfHiLo | mbed/MPU6050.cpp:34-40 | every int16 value decodes back from its high and low byte |
| Measure.HiLoOfWord | mbed/MPU6050.cpp:34-40 | the decoded word gives back the two bytes it came from |
| Measure.Encode | mbed/MPU6050.cpp:34-40 | the 14-byte layout the decoder reads: channel i's high byte at 2i and low byte at 2i+1 |
| Measure.DecodeEncode | mbed/MPU6050.cpp:34-40 | any seven int16 values, sent in the device's byte layout, decode to the same values in the same channels |
| Measure.EncodeDecode | mbed/MPU6050.cpp:34-40 | the decode loses nothing: each 14-byte burst is the encoding of the sample it decodes to |
| Measure.DecodeCountingBurst | mbed/MPU6050.cpp:34-40 | bytes 0x01..0x0E decode pairwise and in channel order to 258, 772, 1286, 1800, 2314, 2828, 3342 |
| Measure.DecodeNegativeWord | mbed/MPU6050.cpp:34-40 | a high byte of 0x80 or more gives a negative channel: 0xFF 0xFE is -2 and 0x80 0x00 is -32768 |
| Measure.SignedChar | mbed/MPU6050.cpp:29 | an octet read through a signed `char` is in -128..127 and agrees with the octet modulo 256 |
| Measure.WordSignedChar | mbed/MPU6050.cpp:34-40 | the expression as written where plain `char` is signed (with C++20's meaning for shifting a negative int): a low byte below 0x80 still gives the big-endian word, and a low byte of 0x80 or more gives lo - 256 whatever the high byte |
| Measure.SignExtendedHighByte | mbed/MPU6050.cpp:34-40 | sign-extending the high byte changes the sum only by a multiple of 2^16, which the int16_t store drops |
| Measure.WordWithHighLowByte | mbed/MPU6050.cpp:34-40 | when the low byte is 0x80 or more, the big-endian word equals lo - 256 exactly when the high byte is 0xFF |
| Measure.SignedCharAgreement | mbed/MPU6050.cpp:34-40 | with a signed `char`, the expression is right if and only if the low byte is below 0x80 or the high byte is 0xFF |
| Measure.SignedCharCounterexample | mbed/MPU6050.cpp:34-40 | the pair 0x01 0x80 means 384 but reads as -128 through a signed `char` |
| SetReg.RunFrom | mbed/MPU6050.cpp:176-192 | from attempt cnt, the loop fails if and only if no read-back from cnt to 19 matches; on failure it has made 20 attempts; on success the last attempt matched and no earlier one from cnt did |
| SetReg.SetRegOutcome | mbed/MPU6050.cpp:168-195 | setreg makes 1 to 20 attempts; it returns true (failure) if and only if none of the first 20 read-backs equals data; on success the last attempt is the first match |
| SetReg.FirstMatchStops | mbed/MPU6050.cpp:176-191 | if the first read-back equal to data is at index k < 20, setreg makes exactly k+1 attempts and returns false |
| SetReg.NeverMatchingGivesUp | mbed/MPU6050.cpp:172-194 | a device that never reads back data makes setreg try exactly 20 times and return true |
| SetReg.OutcomeIgnoresLaterReadBacks | mbed/MPU6050.cpp:176-191 | read-backs after the last attempt made cannot change setreg's outcome |
| SetReg.AttemptTransfers | mbed/MPU6050.cpp:178-183 | one attempt is three transfers, all to device 0xD0: a write of (addr, data), a write of addr alone, and a read of one byte |
| SetReg.SetReg | mbed/MPU6050.cpp:168-195 | each of the 1..20 attempts writes (addr, data), re-selects addr and reads one byte; the result is true if and only if no read-back matched; on success the attempt count is one past the first match; it agrees with SetRegOutcome |
| Startup.GyroSensitivityTenths | mbed/MPU6050.cpp:10-13 | gyro ranges 0, 1 and 2 pick their table entry (1310, 655, 328 tenths of LSB per deg/s), every other value picks 164 |
| Startup.AccelSensitivity | mbed/MPU6050.cpp:15-18 | accel ranges 0, 1 and 2 pick their table entry (16384, 8192, 4096 LSB per g), every other value picks 2048 |
| Startup.AccelSensitivityHalves | mbed/MPU6050.cpp:15-18 | for accel range r in 0..3, the sensitivity is 16384 / 2^r exactly |
| Startup.GyroSensitivityNotHalving | mbed/MPU6050.cpp:10-13 | the gyro table is not an exact halving: 65.5 is half of 131.0 but 32.8 is not half of 65.5 |
| Startup.RangeField | mbed/MPU6050.cpp:21-22 | `range << 3` as a `char` always has its low three bits clear; for range 0..3 it is range*8, below 0x20, and divides back to range |
| Startup.StartupWrites | mbed/MPU6050.cpp:20-23 | the constructor writes four distinct registers: CONFIG with DLPF first, then GYRO_CONFIG and ACCEL_CONFIG, each range 0..3 recoverable from its value, and PWR_MGMT_1 with 0x01 last |
| Startup.RunWrites | mbed/MPU6050.cpp:20-23 | the setreg calls are made one per write, in order, each with 1 to 20 attempts, using between n and 20n read-backs in all |
| Startup.RunWritesReadsInTurn | mbed/MPU6050.cpp:20-23 | call i reads back from exactly where calls 0..i-1 stopped, and ends as setreg does on those read-backs |
| Startup.RunWritesAllFail | mbed/MPU6050.cpp:20-23 | if no read-back equals any value written, every call fails after 20 attempts |
| Startup.Construct | mbed/MPU6050.cpp:8-24 | the handle gets the table sensitivities for its ranges; exactly four setreg calls are made, in order (0x1A, DLPF), (0x1B, GRANGE<<3), (0x1C, ARANGE<<3), (0x6B, 0x01); 4 to 80 read-backs are used |
| Startup.ConstructIgnoresWriteResults | mbed/MPU6050.cpp:20-23 | the constructor's handle is the same whatever the device read back: the setreg results are dropped |
| Startup.ConstructCompletesWhenEveryWriteFails | mbed/MPU6050.cpp:20-23 | when every read-back is 0xFF, all four calls fail after 20 attempts each, and the constructor still returns the build-time handle |
| Startup.BuildConfigStartup | mbed/MPU6050.h:7-9 | with DLPF = 2, GRANGE = 0, ARANGE = 0 the writes are (0x1A, 2), (0x1B, 0), (0x1C, 0), (0x6B, 1), and the sensitivities are 131.0 LSB per deg/s and 16384 LSB per g |

## Findings

| source | as written | input that shows it | evidently intended | confidence | as-written member | corrected member |
|---|---|---|---|---|---|---|
| mbed/MPU6050.cpp:34-40 | `(data_c[2i]<<8)\|data_c[2i+1]` on plain `char` bytes | where plain `char` is signed, the pair 0x01 0x80 gives -128 instead of 384, because the sign-extended low byte overwrites the high byte | each byte read as unsigned, giving the big-endian word | low: on the ARM mbed target `char` is unsigned, so the expression is right there; this is a portability hazard; not executed | Measure.WordSignedChar (shown by Measure.SignedCharCounterexample and Measure.SignedCharAgreement) | Measure.Word (proved equal to the expression by Measure.WordIsShiftOr, round trip by Measure.DecodeEncode) |

## Left out

- Floating-point conversion and bias correction in `measure_f` (mbed/MPU6050.cpp:63-80) are not modelled. They are single-precision division and subtraction. TSENS and TOFST are used only there.
- `calibrate` (mbed/MPU6050.cpp:84-166) is not modelled. Its mean, variance and standard deviation use float sums, `pow` and `sqrt`. Its LED toggling and `printf` lines are hardware and serial output.
- The I2C transport is not modelled. `i2c.write` and `i2c.read` are foreign mbed code, and their return codes are ignored by the driver. The bytes they deliver are inputs to the model. The `repeated` flag of the burst read is not recorded.
- A failed transfer can leave `data_c` or `resp` stale. The model cannot represent this, because every read is assumed to deliver its bytes.
- The `Serial*` parameters and the pin arguments of the constructor are not modelled. They only carry output and wiring.
- The shared buffers `data_i` and `data_f` (mbed/MPU6050.h:14-15) are not modelled. Each read returns a fresh value.
- little-ball-bot/main.cpp is not modelled. It is a polling loop that prints readings.
- SetReg.SetReg: `readBacks` must hold at least 20 bytes, so that every read the loop can make has a byte to return. The bus always answers; running out of answers is not modelled.
- SetReg.SetRegOutcome: needs at least 20 read-backs, for the same reason.
- Startup.Construct: needs at least 80 read-backs, so that each of the four calls has 20.
- Startup.GyroSensitivityTenths: states the decimal table values in tenths. The single-precision rounding of 32.8 and 16.4 is not modelled.
