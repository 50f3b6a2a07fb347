# MPU-6050 motion controller: register decoding and serial framing

This project models, in Dafny, the integer byte handling of a Raspberry Pi Pico
firmware that reads an MPU-6050 inertial sensor and streams orientation and
"shake" events over a UART:

- **Register decoding** (`mpu6050_read_raw`): each accelerometer, gyroscope and
  temperature reading arrives as two register bytes, high byte first, and is
  reassembled as `hi << 8 | lo` into an `int16_t`, so values from 32768 up wrap
  to negative. Modelled in `int16_codec.dfy` (`DecodeBE16`, `ToInt16`) and
  `mpu6050.dfy` (the decode loop `DecodeAxes`, which fills a three-slot array,
  and `ReadRaw`).
- **Frame encoding** (`mpu6050_task`): every cycle sends a pitch frame and a
  roll frame, `[channel, v & 0xFF, (v >> 8) & 0xFF, 0xFF]`, and, when
  `abs(accel[1]) > 17000`, an event frame `[2, 0, (mod >> 8) & 0xFF, 0xFF]`.
  Modelled in `protocol.dfy` as pure functions (`EncodeCycle`), with a host-side
  reader of the same format (`DecodeCycle`) as the round-trip partner.
- **The task loop** (`sensor_task.dfy`): a class `Task` holding the `accel` and
  `gyro` arrays, `temp`, and the bytes sent so far; `Cycle` is one loop
  iteration, and the lemma `StreamWellFramed` shows that any run of cycles
  leaves whole, terminated frames on the wire.

Integer semantics: C `int` is Dafny `int` (no value the firmware shifts or
masks comes near 32 bits). `v & 0xFF` is `v % 256` and `v >> 8` on a signed
value is an arithmetic shift, i.e. floor division by 256; Dafny's `/` and `%`
by a positive divisor are exactly these. Storing a value of 32768 or more into
an `int16_t` is taken to wrap modulo 2^16, as GCC defines it.

The `(int)` casts at main/main.c:91 and 96 truncate toward zero before the
encoder sees an angle, so an angle of 45.7° is sent as 45; the model starts
from the integer angle, and `Protocol.CycleExamples` has
`[0, 45, 0, 255, 1, 226, 255, 255]` for pitch 45 and roll -30.

## Model

| member | source | states |
|---|---|---|
| Int16Codec.ToInt16 | main/main.c:41 | storing an int into an `int16_t` yields the value congruent to it modulo 65536, and the value itself when it fits |
| Int16Codec.Asr8 | main/main.c:92 | `v >> 8` on a signed int is floor division: `256*r <= v < 256*r + 256` |
| Int16Codec.LowByte | main/main.c:91 | `v & 0xFF` is the byte `b` with `v == 256 * (v >> 8) + b` |
| Int16Codec.HighByte | main/main.c:92 | `(v >> 8) & 0xFF` is the byte `h` with `v == 65536*q + 256*h + (v & 0xFF)`: bits 8 to 15 (also used at 97 and 109); its inverse is `DecodeOfSplit` / `SplitOfDecode` |
| Int16Codec.DecodeBE16 | main/main.c:41 | `hi << 8 \| lo` stored into an `int16_t` is `hi*256+lo` below 32768 and `hi*256+lo-65536` otherwise, in [-32768, 32767]; negative exactly when `hi >= 0x80` |
| Int16Codec.DecodeOfSplit | main/main.c:40-42 | splitting any int into high and low byte and decoding gives it back wrapped to 16 bits; an int16 comes back unchanged |
| Int16Codec.SplitOfDecode | main/main.c:40-42 | decoding two bytes and splitting the result gives back the same two bytes |
| Mpu6050.Axes | main/main.c:40-42 | of a six-byte block, reading `i` is decoded from bytes `2i` and `2i+1` alone |
| Mpu6050.AxesOfRegisters | main/main.c:40-42 | decoding the sensor's big-endian register image of three readings returns the readings |
| Mpu6050.RegistersOfAxes | main/main.c:48-50 | every six-byte block is the register image of what it decodes to |
| Mpu6050.DecodeAxes | main/main.c:40-42 | after the loop the array holds exactly the three decoded readings, one per slot |
| Mpu6050.ReadRaw | main/main.c:33-57 | fills `gyro` with the decoded gyroscope block, `accel` (when a distinct array) with the accelerometer block, and returns the decoded temperature |
| Protocol.Frame | main/main.c:90-98 | a frame is four bytes, channel first and the 0xFF terminator last |
| Protocol.AngleFrame | main/main.c:90-98 | an angle frame is a frame on its channel; its value bytes are given by `AngleFrameRoundTrip` |
| Protocol.ShakeMagnitude | main/main.c:104 | `abs` of the promoted reading lies in [0, 32768] and equals the reading or its negation |
| Protocol.AngleFrameRoundTrip | main/main.c:90-98 | an angle frame is `[ch, v mod 256, floor(v/256) mod 256, 255]`; its value bytes read little-endian give `v` wrapped to 16 bits, `v` itself in [-32768, 32767] |
| Protocol.ShakeDetected | main/main.c:106 | `mod > 17000` holds iff the reading is above 17000 or below -17000 |
| Protocol.EventFrame | main/main.c:107-110 | a channel-2 frame whose low slot is 0 and whose high slot is the magnitude div 256 for any magnitude below 65536 |
| Protocol.EncodeCycle | main/main.c:90-111 | a cycle sends the pitch frame, then the roll frame, then the event frame exactly when the detector fired (12 bytes, else 8); layout by `CycleLayout`, round trip by `DecodeOfEncode` / `EncodeOfDecode` |
| Protocol.ShakeThreshold | main/main.c:104-106 | the strict `>` at the boundary: readings 17000 and -17000 do not fire, 17001 and -17001 do |
| Protocol.EventFrameBytes | main/main.c:104-110 | in a fired event frame the low slot is 0 and the high slot is `abs(accelY) div 256`, in [66, 128], 128 only for -32768 |
| Protocol.CycleLayout | main/main.c:90-111 | a cycle emits 8 bytes without an event and 12 with one; channels 0, 1, 2 at indices 0, 4, 8; 0xFF at every index ≡ 3 mod 4 |
| Protocol.DecodeOfEncode | main/main.c:90-111 | reading back a cycle's output gives pitch and roll wrapped to 16 bits, and an event exactly when the detector fired, with its high byte |
| Protocol.AccelForHigh | main/main.c:104-109 | every high byte in [66, 128] is produced by some reading that fires the detector |
| Protocol.EncodeOfDecode | main/main.c:90-111 | every accepted packet whose event byte lies in [66, 128] is exactly the output of some cycle |
| Protocol.AngleFrameExamples | main/main.c:90-98 | concrete angle frames: 45, -30 (226, 255), -180 (76, 255), 180, 127, 256 (0, 1) |
| Protocol.CycleExamples | main/main.c:90-111 | concrete packets: pitch 45 / roll -30, readings ±17000 (no event), 17500 (high byte 68), -32768 (high byte 128) |
| SensorTask.Stream | main/main.c:73-114 | the serial stream after a run of cycles holds 8 bytes per cycle plus 4 per cycle whose detector fired |
| SensorTask.ShakeCycles | main/main.c:104-111 | the cycles of a run that send an event frame: each firing cycle as many times as it occurs in the run, and no non-firing cycle |
| SensorTask.CycleWellFramed | main/main.c:90-111 | one cycle's output is whole 4-byte frames with channel ≤ 2 first and 0xFF last |
| SensorTask.StreamWellFramed | main/main.c:73-114 | after any run of cycles the serial stream is whole 4-byte frames, channel ≤ 2 first and 0xFF last |
| SensorTask.Task.constructor | main/main.c:68 | the task starts with two distinct three-slot arrays and nothing sent |
| SensorTask.Task.Cycle | main/main.c:73-111 | one loop iteration refills `accel`, `gyro`, `temp` from the register bytes and appends exactly that cycle's packet to the serial stream |

## Left out

- AHRS fusion (`FusionAhrsInitialise`, `FusionAhrsUpdateNoMagnetometer`, `FusionQuaternionToEuler`, main/main.c:69-70, 86-88): floating-point numerics in an external library (`Fusion.h`) that is not part of this model; its pitch and roll reach the model as integer parameters of `Task.Cycle` and `EncodeCycle`.
- Unit normalisation by 131.0 and 16384.0 (main/main.c:77-84) and the float-to-int truncation of the Euler angles (main/main.c:91, 96): floating point.
- I2C transactions, register-address writes, `mpu6050_reset`, and GPIO/I2C initialisation (main/main.c:28-31, 37-38, 45-46, 53-54, 60-64): hardware I/O; the bytes a read returns are parameters of `ReadRaw`.
- `uart_putc_raw` as an output device: the model records the bytes it is given in `Task.sent` instead of transmitting them.
- FreeRTOS task creation, the scheduler and the 10 ms `vTaskDelay` period (main/main.c:113, 117-126): scheduling and timing.
- The unused queue and `mouse_data_t` (main/main.c:21-26, 120) and the commented-out temperature printf (main/main.c:100-102): dead code.
- Mpu6050.ReadRaw: the temperature, written through a pointer in the source, is the method's return value.
