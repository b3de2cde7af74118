# Condor Pacific IMU frame decoder

A Dafny model of the serial-frame decoder for the Condor Pacific inertial
measurement unit. The same decoder exists twice in the repository: the
current driver `IMU/Conodor_Pacific/imu.py` and the legacy driver
`Old_Git/imuDriver.py`. It has four parts:

- **Frame synchroniser** (`IMU.get`). It skips bytes until the start sentinel
  0x24, reads 35 more bytes, and accepts the 36-byte block only if it ends
  with the end sentinel 0x23. Otherwise it drops the whole block and scans on
  after it.
- **Field decoder** (`IMU.parse_packet`). It assembles little-endian unsigned
  fields at fixed offsets:
  - the status word at 5-6;
  - seven 24-bit sensor channels at 8-28;
  - the temperature at 29-30;
  - the software version at 31 and the counter at 32;
  - the crc at 33-34, which is never checked.
- **Status decoder** (`MainStatus.set`). It expands the status word into
  twelve health flags, most of them with inverted polarity.
- **Scale converter** (`values_adapt`, `IMU.sensor_values_adaptions`).
  - It recovers the sign of a 24-bit channel by complement-and-negate.
  - It divides the gyro channels by 2^12 and the accelerometer channels by
    2^15, and subtracts 1 g from accelerometer z.
  - It divides the temperature by 10.

Modules:

- `Bits`: Python's `&` on non-negative integers (`And`), and the bit view
  (`Bit`, `Pow2`) used to state what a mask test means.
- `Frame`: the byte type, the sentinels, little-endian assembly, the decoder
  `Decode` and its inverse `Encode`.
- `Status`: the flag decoder `DecodeStatus` and the class `MainStatus`, whose
  fields `Set` overwrites in place.
  - Its unnamed constructor is the current driver's `MainStatus(val)`, which
    decodes at once.
  - `Blank` is the legacy driver's `MainStatus(val)`, which leaves every flag
    false.
- `Scale`: `values_adapt` (`ValuesAdapt`) with its sign recovery
  (`SignedValue`) and the `np.int32` cast (`Int32`).
- `Sync`: the synchroniser as a function `Scan` of the byte stream and the
  read index.
- `Driver`: the class `Imu`, holding the link (a byte stream and a read
  index), the status holder and the eleven sensor attributes. It also holds
  `Get`, which is proved against `Scan`, `Decode`, `DecodeStatus` and
  `ValuesAdapt`.
  - One class serves both drivers. The constant `freshStatusPerFrame` is
    false for the current driver, which sets one status holder in place, and
    true for the legacy driver, which builds a fresh one per frame.
  - `Open` and `OpenLegacy` are the two constructors.
  - A Python attribute holds nothing yet, an int, or a float. It is modelled
    as `Number = Missing | Int | Float`.

## Model

| member | source | states |
|---|---|---|
| `Bits.Pow2` | IMU/Conodor_Pacific/imu.py:22-29 | the mask `1 << k` is positive and has bit k set |
| `Bits.And` | IMU/Conodor_Pacific/imu.py:20-33 | Python's `a & b` on non-negative ints never exceeds either operand |
| `Bits.AndPow2` | IMU/Conodor_Pacific/imu.py:22-29 | `v & (1 << k)` is 2^k when bit k of v is set and 0 otherwise, so each single-bit mask test reads exactly one bit |
| `Bits.AndTwoBits` | IMU/Conodor_Pacific/imu.py:30 | a two-bit mask such as 0x6000 keeps exactly bits k and k+1 of the word |
| `Frame.LE16` | IMU/Conodor_Pacific/imu.py:67 | `lo + (hi << 8)` is below 2^16, and its low and high bytes are `lo` and `hi` again |
| `Frame.LE24` | IMU/Conodor_Pacific/imu.py:60-66 | `b0 + (b1 << 8) + (b2 << 16)` is below 2^24, and its three bytes are `b0`, `b1`, `b2` again |
| `Frame.Decode` | IMU/Conodor_Pacific/imu.py:57-70 | every decoded field fits its width: status, temperature and crc below 2^16, the seven channels below 2^24, version and counter single bytes |
| `Frame.DecodeEncode` | IMU/Conodor_Pacific/imu.py:57-70 | decoding a frame built from in-range fields gives those fields back, whatever the reserved bytes 1-4 and 7 hold |
| `Frame.EncodeDecode` | IMU/Conodor_Pacific/imu.py:57-70 | every frame is the encoding of its decoded fields with its own reserved bytes 1-4 and 7, so decoding drops nothing else |
| `Frame.DecodeIgnores` | IMU/Conodor_Pacific/imu.py:57-70 | offsets 0-4, 7 and 35 never reach a field; blocks agreeing on 5-6 and 8-32 decode alike except for the crc |
| `Status.DecodeStatus` | IMU/Conodor_Pacific/imu.py:20-33 | the flags `set` computes are consistent for every word: fault mode implies built-in test mode, and normal mode excludes built-in test mode |
| `Status.DecodeStatusBits` | IMU/Conodor_Pacific/imu.py:21-33 | the high-g flag holds iff bit 4 is set; each `Ok` flag and the sync flag hold iff bit 5, 6, 7, 9, 10, 11, 15 or 12 is clear |
| `Status.DecodeStatusModes` | IMU/Conodor_Pacific/imu.py:30-32 | normal mode iff bits 13 and 14 are clear (the 0x6000 mask); built-in test mode iff bit 13; fault mode iff bits 13 and 14 |
| `Status.DecodeStatusUnusedBits` | IMU/Conodor_Pacific/imu.py:20-33 | setting bit 0, 1, 2, 3 or 8 of the word leaves every flag unchanged |
| `Status.MainStatus.constructor` | IMU/Conodor_Pacific/imu.py:17-18 | the current driver's `MainStatus(val)` stores the word and decodes every flag from it |
| `Status.MainStatus.Blank` | Old_Git/imuDriver.py:22-35 | the legacy driver's `MainStatus(val)` stores the word and leaves every flag false, whatever the word |
| `Status.MainStatus.Set` | Old_Git/imuDriver.py:37-50 | `set(val)` stores the word unchanged and replaces every flag with the decoding of the word |
| `Status.MainStatus.Assign` | IMU/Conodor_Pacific/imu.py:22-33 | the twelve flag assignments of `set` leave exactly the given flags in the holder and the stored word as it was |
| `Scale.Int32` | IMU/Conodor_Pacific/imu.py:13 | `np.int32(x)` lies in the signed 32-bit range, agrees with x modulo 2^32, and is x itself when x is in range |
| `Scale.SignBitTest` | IMU/Conodor_Pacific/imu.py:11 | on a 24-bit field, `value & TWOS_COMPLIMENT_FACTOR` is non-zero exactly when the field is at least 2^23 |
| `Scale.SignedValue` | IMU/Conodor_Pacific/imu.py:11-13 | complement-and-negate of a 24-bit field is its two's-complement reading: it lies in [-2^23, 2^23), is negative iff bit 23 is set, and is the field again modulo 2^24 |
| `Scale.ValuesAdapt` | IMU/Conodor_Pacific/imu.py:10-14 | `values_adapt(v, f)` on a 24-bit field is v/f when bit 23 is clear and (v - 2^24)/f when it is set, and lies in [-2^23/f, 2^23/f) |
| `Scale.ValuesAdaptRoundTrip` | IMU/Conodor_Pacific/imu.py:10-14 | multiplying the scaled value back by the factor and adding 2^24 to a negative result recovers the field |
| `Scale.ValuesAdaptInjective` | Old_Git/imuDriver.py:12-19 | distinct 24-bit fields scale to distinct values under the same factor |
| `Scale.ScaledAccelerations` | IMU/Conodor_Pacific/imu.py:76-79 | on the accelerometer scale, 0x8000 reads 1 g, 0xFF8000 reads -1 g, and 0x800000 reads -256 g |
| `Sync.Scan` | IMU/Conodor_Pacific/imu.py:40-55 | a block the synchroniser accepts ends within the stream, at least 36 bytes after the start, and is a frame: 36 bytes, 0x24 first, 0x23 last |
| `Sync.ScanFrame` | IMU/Conodor_Pacific/imu.py:43-51 | the accepted frame is exactly the 36 bytes of the stream just before the read index where reading stops |
| `Sync.ScanIgnoresLaterBytes` | IMU/Conodor_Pacific/imu.py:46-51 | bytes arriving after an accepted frame change neither the frame found nor where reading stops |
| `Sync.ScanIgnoresPayload` | IMU/Conodor_Pacific/imu.py:44-51 | only the sentinels are checked: another stream with the same bytes up to the start sentinel and the same end sentinel accepts its own block at the same place, whatever the payload |
| `Sync.DesyncRecovery` | Old_Git/imuDriver.py:69-91 | a start sentinel, 34 bytes and a wrong terminator followed by a valid frame yield exactly that frame and nothing after it |
| `Sync.RejectedBlockSkipped` | IMU/Conodor_Pacific/imu.py:44-53 | for every stream, a block that starts with 0x24 but does not end with 0x23 is dropped whole: scanning from its start gives the same result as scanning from just after it, so no frame starting strictly inside it is found, and the first frame found ends at least a full block later |
| `Sync.MissedFrameInsideRejectedBlock` | IMU/Conodor_Pacific/imu.py:52-53 | a concrete instance: in the 37-byte stream 0x24 0x24, 34 zero bytes, 0x23, the valid frame at offset 1 is never found and the scan ends with no frame |
| `Driver.Parsed` | IMU/Conodor_Pacific/imu.py:57-70 | after `parse_packet` every attribute `sensor_values_adaptions` converts holds a non-negative int |
| `Driver.Adapted` | IMU/Conodor_Pacific/imu.py:72-80 | `sensor_values_adaptions` turns the seven channels and the temperature into floats and leaves version, counter and crc as they were |
| `Driver.FrameReadingsFields` | IMU/Conodor_Pacific/imu.py:72-80 | after a frame, each gyro channel is the signed reading of its three bytes over 4096, accelerometer x, y and high-g x are theirs over 32768, accelerometer z is its own over 32768 less 1, temperature is the 16-bit field over 10 with no sign handling, and version, counter and crc are the raw integers |
| `Driver.FrameReadingsRange` | IMU/Conodor_Pacific/imu.py:72-80 | after a frame the gyro axes lie in [-2048, 2048), accelerometer x, y and high-g x in [-256, 256), accelerometer z in [-257, 255) and the temperature in [0, 6553.5] |
| `Driver.FrameReadingsIgnore` | IMU/Conodor_Pacific/imu.py:57-80 | two blocks agreeing on offsets 8-32 leave the same sensor values, version and counter, whatever their status words; the crc reaches only the crc attribute |
| `Driver.WorkedAccelerometerZ` | IMU/Conodor_Pacific/imu.py:78 | accelerometer-z bytes 00 80 00 read 0 g, 00 80 FF read -2 g, 00 00 80 read -257 g |
| `Driver.WorkedGyroZero` | IMU/Conodor_Pacific/imu.py:73-75 | all-zero gyro bytes read 0 on each axis |
| `Driver.Imu.Open` | IMU/Conodor_Pacific/imu.py:36-38 | the current driver starts at the beginning of the link with a status holder decoded from 0 and no sensor attribute assigned |
| `Driver.Imu.OpenLegacy` | Old_Git/imuDriver.py:53-67 | the legacy driver starts with a blank status holder and every sensor attribute, version, counter and crc set to 0 |
| `Driver.Imu.Read` | IMU/Conodor_Pacific/imu.py:43 | `ser.read()` delivers the next byte of the link and advances the read index by one |
| `Driver.Imu.ParsePacket` | IMU/Conodor_Pacific/imu.py:57-70 | the status holder holds the word at 5-6 and its decoded flags, and every sensor attribute holds its raw field. The current driver keeps the same holder; the legacy driver (Old_Git/imuDriver.py:97-98) holds a freshly allocated one, so no flag carries over, and the previous holder is left exactly as it was |
| `Driver.Imu.StoreFields` | IMU/Conodor_Pacific/imu.py:60-70 | the attribute assignments of `parse_packet` leave the raw fields in the eleven sensor attributes and nothing else changed |
| `Driver.Imu.SensorValuesAdaptions` | IMU/Conodor_Pacific/imu.py:72-80 | each raw channel is replaced by its scaled value, temperature by itself over 10; version, counter, crc, the link and the status holder are untouched |
| `Driver.Imu.Synchronise` | IMU/Conodor_Pacific/imu.py:41-55 | the scanning loop stops right after the frame `Scan` finds, with that frame in hand, or reports none once every byte is read |
| `Driver.Imu.Get` | IMU/Conodor_Pacific/imu.py:40-55 | `get` succeeds iff `Scan` finds a frame; it then leaves the read index after that frame, the attributes equal to the frame's scaled readings and the status holder decoded from its word (for the legacy driver a new holder, the previous one untouched); otherwise every byte is read and no attribute or flag has changed |

## Left out

- The serial port is not modelled: no port opening, baud rate or blocking
  read. The link is a finite byte sequence with a read index. Where the
  driver's read would block forever at the end of the data, `Get` returns
  false with every byte read.
- `get` returns `self` in Python. `Get` returns whether a frame was found,
  which is always true in the source.
- Driver.Adapted: the temperature quotient over 10 is an exact real. Python
  rounds it to the nearest double. The other quotients, and the -1 on
  accelerometer z, are exact in doubles because every numerator is at most
  2^23 in magnitude and every divisor is a power of two.
- Scale.ValuesAdapt: the contract covers only fields below 2^24, the only
  values `parse_packet` produces. Negative ints and floats never reach it.
- Scale.Int32: the model wraps modulo 2^32. What `np.int32` does with an int
  outside the signed 32-bit range depends on the NumPy version, which the
  repository does not pin: 1.24 to 1.26 wrap with a `DeprecationWarning`,
  and 2.x raises `OverflowError`. `values_adapt` only passes it values in
  [-2^23, 0), where every version agrees.
- Driver.Imu.SensorValuesAdaptions: it requires the attributes to hold
  non-negative ints, as after `parse_packet`. In the source, calling it
  without a preceding parse raises `AttributeError` (current driver) or
  scales the zeros (legacy driver), and calling it twice raises `TypeError`
  on `&` of a float. These error paths are not modelled.
- The legacy `MainStatus(val)` sets its flags to the int 0, not `False`.
  They are modelled as `false`, which compares equal and is equally falsy
  in Python.
- Python's dynamic attributes are modelled only for the sensor fields, as
  `Number`. The serial object `ser` is not a field.
- Not part of this model:
  - `IMU/Conodor_Pacific/imuData.py`, which does floating-point attitude and
    position integration driven by the wall clock;
  - the `__main__` loop of `Old_Git/imuDriver.py`, which reads `time.time()`
    around each `get`, prints the readings and clears the terminal with
    `os.system('clear')`;
  - the other sensors, the ground station, the Arduino firmware and the
    dashboard.
