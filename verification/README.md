# PMS particulate-sensor core, modelled in Dafny

This project models the sensor core of an ESP8266 air-quality firmware. The
sensors are Plantower PMS1003/3003/5003/7003 particulate sensors on a shared
software UART. The model covers:

- the 32-byte PMS5003 frame: start marker, declared length, 16-bit checksum
  and big-endian PM fields;
- the byte-stream scanner `read()`. It drops bytes until a `0x42` head, then
  fills a zeroed packet with up to one frame's worth of bytes and checks it;
- the bounded retry `readUntilSuccessful(tries)`;
- the driver lifecycle: `probe`, `begin`, `sleep` and `wake_up(force)`, with
  their fixed 7-byte commands;
- the 30-slot sample window of the generic `PMS::report()`, and the
  single-frame `PMS5003::report()`;
- `detectSensor()`, `setup()` and `loop()` of the firmware.

The model works on immutable records. The UART is an unread input sequence
`rx` plus the bytes written so far, `tx`. Reading returns the remainder. The
scan and retry loops are recursive functions over decreasing attempt and try
counters. The rest are functions too, except for a few methods:

- `Frame.CalculatedChecksum`: a loop over the 32 packet bytes.
- `Pms.Collect`: a loop over the 30 slots. It is wrapped by `Pms.Window` and
  `Pms.Report`.
- `Firmware.ReportAndSleep`, `Firmware.ReportPhase` and `Firmware.Loop`:
  the steps of one `loop()` pass.

A `loop()` pass carries a log of the driver calls it makes. Each step appends
its own event as it makes its call.

Modules, one per file:

- `Bytes` (bytes.dfy): bytes, the plain byte sum, big-endian words, and
  arithmetic modulo 2^16.
- `Serial` (serial.dfy): the UART as `available`/`peek`/`read`/`readBytes`/`write`.
- `Frame` (frame.dfy): `PMS5003::Packet`. It also has an independent encoder
  from thirteen data words, and valid frames are shown to be exactly its outputs.
- `Scanner` (scanner.dfy): `read()` and `readUntilSuccessful()`. They are
  generic over the packet class (a `Codec`: frame size, `is_valid`, three field
  readers) and over the attempt bound.
- `Command` (command.dfy): the sleep and wake-up command frames.
- `Pms` (pms.dfy): the generic `PMS` driver and its report window.
- `Pms5003Driver` (pms5003_driver.dfy): the dedicated `PMS5003` driver.
- `Firmware` (firmware.dfy): `main.cpp`.

The two driver classes run the same read loop, retry, lifecycle and commands.
They are modelled once (`Scanner`, `Pms`) and instantiated with each class's
constants:

| constant | `PMS` | `PMS5003` |
|---|---|---|
| loop passes per `read()` | 32 | `sizeof(Packet)`, also 32 |
| probe tries | 4 | 8 |
| report | 30 slots of 8 tries | one call of 8 tries |

The header `pms5003.h` that fixes the packet's struct offsets is not part of
this model. The byte offsets of the PM1.0/PM2.5/PM10 atmospheric words are a
`Layout` parameter, required to lie inside the data area.

Two details of the read loop shape the model:

- **Resynchronisation.** On a `0x42` head `read()` consumes up to a whole
  frame's worth of bytes, valid or not, and bytes that never arrive stay zero
  (`Scanner.Step`, `Serial.ZeroFilled`). After a `0x42` that does not start a
  valid frame, scanning resumes after the bytes that pass consumed, not at the
  next byte.
- **Attempt bound.** `PMS5003::read()` bounds its loop by `sizeof(Packet)`,
  which is 32, the same as `PMS::read()`. The bound is a parameter of
  `Scanner.Read`.

## Model

| member | source | states |
|---|---|---|
| Serial.Available | src/sensors/pms.cpp:23 | `available()` holds exactly when at least one byte is waiting on the input |
| Serial.Begin | src/sensors/pms.cpp:19 | `uart.begin(9600)` opens the port and neither consumes input nor writes anything |
| Serial.End | src/sensors/pms.cpp:12 | `uart.end()` closes the port and neither consumes input nor writes anything |
| Serial.Write | src/sensors/pms.cpp:103 | `uart.write(buf, n)` puts the bytes after everything written before, in order, and leaves the port state and the input alone |
| Serial.Peek | src/sensors/pms.cpp:29 | `peek()` answers -1 exactly when no byte is waiting, and otherwise the next byte without consuming it |
| Serial.ReadOne | src/sensors/pms.cpp:37 | `read()` of one byte: on a waiting stream it removes exactly the head byte and keeps the rest in order; on an empty stream it changes nothing |
| Serial.ReadBytes | src/sensors/pms5003.cpp:32 | `readBytes(n)` takes `min(n, available)` bytes off the front of the input, in order, and leaves exactly the rest |
| Serial.ZeroFilled | src/sensors/pms5003.cpp:31-32 | after `reset()` then `readBytes`, the packet has exactly `size` bytes: the received bytes in order, then zeros where nothing arrived |
| Frame.CalculatedChecksum | src/sensors/pms5003.cpp:109-116 | the wrapping 16-bit running sum over all 32 bytes, minus the two trailer bytes, equals the sum of the first 30 bytes modulo 65536 and lies in 0..65535 |
| Frame.IsValid | src/sensors/pms5003.cpp:99-103 | `is_valid()` holds exactly when the first four bytes are `42 4D 00 1C` and the big-endian trailer word equals the 16-bit sum of the first 30 bytes |
| Frame.ChecksumIgnoresTrailer | src/sensors/pms5003.cpp:109-116 | overwriting only the two checksum bytes never changes the calculated checksum |
| Frame.Reset | src/sensors/pms5003.cpp:105-107 | after `reset()` all 32 bytes are zero, and such a packet is never valid |
| Frame.ValidIffEncoded | src/sensors/pms5003.cpp:99-103 | a 32-byte packet passes `is_valid()` exactly when it is the frame a sender builds from its own thirteen data words: marker `42 4D`, length `00 1C`, words, big-endian sum |
| Frame.EncodeIsValid | src/sensors/pms5003.cpp:99-103 | every frame built from thirteen 16-bit words passes `is_valid()` and reads back those words |
| Frame.ValidIsEncoded | src/sensors/pms5003.cpp:99-103 | every frame that passes `is_valid()` is the encoding of the words it carries |
| Frame.SingleByteCorruptionDetected | src/sensors/pms5003.cpp:99-103 | changing any one byte of a valid frame, in the header, the data or the checksum, makes `is_valid()` fail |
| Frame.Pm1Value | src/sensors/pms5003.cpp:118-120 | `pm1()` is `hi*256+lo` of its own byte pair, always within 0..65535 |
| Frame.Pm10Value | src/sensors/pms5003.cpp:122-124 | `pm10()` is `hi*256+lo` of its own byte pair, always within 0..65535 |
| Frame.Pm25Value | src/sensors/pms5003.cpp:126-128 | `pm25()` is `hi*256+lo` of its own byte pair, always within 0..65535 |
| Frame.FieldIsLocal | src/sensors/pms5003.cpp:118-128 | a PM field does not depend on any byte outside its own pair |
| Scanner.Step | src/sensors/pms.cpp:29-39 | one loop pass: a non-`0x42` head drops exactly one byte, leaves the packet alone and fails; a `0x42` head consumes `min(size, available)` bytes into a zero-filled packet and succeeds exactly when that packet is valid |
| Scanner.ScanLoop | src/sensors/pms.cpp:27-40 | the loop runs at most its attempt count; true only after at least one pass and with a valid, full-size packet; false only after every attempt was used; its if-and-only-if with the passes is `ScanSucceedsIff` |
| Scanner.ScanSucceedsIff | src/sensors/pms.cpp:27-40 | the loop returns true exactly when one of its first `attempts` passes fills the packet with a valid frame |
| Scanner.ScanStopsAtFirst | src/sensors/pms.cpp:33-35 | on success the loop returned right after the first pass that found a valid frame and holds what that pass left; on failure the input is what all `attempts` passes leave |
| Scanner.ScanStopsOnSuccess | src/sensors/pms.cpp:33-35 | when the loop returns true, the pass just before the return found a valid frame, no earlier pass did, and the port is what that pass left |
| Scanner.ScanRunsAllOnFailure | src/sensors/pms.cpp:33-35 | when the loop returns false, the port is what all `attempts` passes leave behind |
| Scanner.Read | src/sensors/pms.cpp:22-41 | with no byte available `read()` returns false and changes nothing; otherwise it runs at most its attempt bound and is true only with a valid packet of the class's size; its if-and-only-if with the passes is `ReadSucceedsIff` |
| Scanner.ReadSucceedsIff | src/sensors/pms.cpp:22-41 | `read()` is true exactly when a byte is waiting and one of its passes fills the packet with a valid frame, and it returns after the first such pass |
| Scanner.ReadConsumesPrefix | src/sensors/pms.cpp:22-41 | `read()` only ever consumes a prefix of the input, at most one frame's worth of bytes per loop pass it may run |
| Scanner.ScanFindsFrame | src/sensors/pms.cpp:28-35 | fewer than `attempts` non-`0x42` bytes followed by a valid frame: the loop returns true with that frame in the packet, and the bytes after it unread |
| Scanner.ReadFindsFrame | src/sensors/pms5003.cpp:22-42 | the same for the whole `read()` call |
| Scanner.ReadUntil | src/sensors/pms.cpp:43-49 | `readUntilSuccessful(tries)` makes at most `tries` reads; true means at least one read and a valid packet; false means all `tries` reads were made |
| Scanner.ReadUntilSucceedsIff | src/sensors/pms5003.cpp:44-51 | `readUntilSuccessful(tries)` is true exactly when one of `tries` consecutive reads would succeed |
| Scanner.ReadUntilStopsAtFirst | src/sensors/pms5003.cpp:45-47 | on success the last read made succeeded, no earlier one would have, and the port is what that read left |
| Scanner.ReadUntilFailureConsumes | src/sensors/pms.cpp:43-49 | on failure the input is exactly what `tries` consecutive reads leave |
| Scanner.SilentLineFails | src/sensors/pms.cpp:43-49 | on a silent line every try fails, nothing is consumed and the packet is untouched |
| Command.Build | src/sensors/pms.cpp:99-113 | a command frame is marker, code, big-endian data word, and the big-endian sum of its first five bytes |
| Command.SleepIsModeChange | src/sensors/pms.cpp:100-102 | the fixed sleep string is the mode-change command (`E4`) with data 0 |
| Command.WakeIsModeChange | src/sensors/pms.cpp:108-110 | the fixed wake-up string is the mode-change command with data 1 |
| Command.FixedChecksums | src/sensors/pms5003.cpp:78-88 | in both fixed strings the last two bytes, big-endian, equal the sum of the first five: 0x173 for sleep, 0x174 for wake-up |
| Pms.Begin | src/sensors/pms.cpp:16-20 | `begin()` opens the UART only when `detected`, and is a no-op otherwise; `PMS5003::begin()` (src/sensors/pms5003.cpp:16-20) is the same code |
| Pms.Sleep | src/sensors/pms.cpp:99-104 | `sleep()` always writes exactly `42 4D E4 00 00 01 73` and changes nothing else; `PMS5003::sleep()` (src/sensors/pms5003.cpp:77-82) is the same code |
| Pms.WakeUp | src/sensors/pms.cpp:106-113 | `wake_up(force)` writes exactly `42 4D E4 00 01 01 74` when `detected` or `force` holds, and writes nothing otherwise; `PMS5003::wake_up()` (src/sensors/pms5003.cpp:84-91) is the same code |
| Pms.Read | src/sensors/pms.cpp:22-41 | `PMS::read()` leaves the detection flag, the UART's open state and its output alone; it is true exactly when a byte is waiting and one of its passes fills the packet with a valid frame, which the packet then holds; the input and packet it leaves are those of the pass loop's own result |
| Pms.ReadUntilSuccessful | src/sensors/pms.cpp:43-49 | `PMS::readUntilSuccessful(tries)` is true exactly when one of `tries` consecutive reads succeeds; a silent line fails without consuming anything; the input and packet it leaves are those of the retry loop's result |
| Pms.ProbeWith | src/sensors/pms.cpp:7-14 | `probe()` sends the forced wake-up, records in `detected` whether one of its tries succeeded, and leaves the UART closed either way |
| Pms.Probe | src/sensors/pms.cpp:7-14 | `PMS::probe()` sends the forced wake-up, is true exactly when one of four consecutive 32-pass reads succeeds, records that in `detected`, and closes the UART |
| Pms.Column | src/sensors/pms.cpp:57-71 | a column handed to `avg`/`sd` has one cell per slot: NAN exactly where the slot is missing, and that slot's value of the column's kind everywhere else |
| Pms.CountMissingBounds | src/sensors/pms.cpp:63-75 | the error count is at most the window size, and equals it exactly when every slot is missing |
| Pms.Collect | src/sensors/pms.cpp:63-73 | the 30-slot loop: slot `i` holds the packet's pm1/pm25/pm10 exactly when its call succeeded, and is missing otherwise; `errors` counts the missing slots; the calls run one after another on the link the previous one left |
| Pms.Window | src/sensors/pms.cpp:63-96 | for any per-slot call: the window as in `Collect`, 0 <= errors <= 30, failure adding nothing exactly when every slot failed, and otherwise exactly three entries, pm1, pm25 and pm10, over their columns |
| Pms.Report | src/sensors/pms.cpp:51-97 | `PMS::report()` fails, appending nothing, exactly when all 30 slots failed; otherwise it appends exactly three entries, pm1, pm25 and pm10, each over its column of the window; 0 <= errors <= 30 |
| Pms.SilentCall | src/sensors/pms.cpp:66 | on a silent line a slot's `readUntilSuccessful(8)` fails and leaves the driver and the UART as they were |
| Pms.StuckSlots | src/sensors/pms.cpp:65-73 | when the slot call fails without moving, every slot starts where the window started and fails |
| Pms.SlotsKeepControl | src/sensors/pms.cpp:65-73 | when each slot's call leaves the detection flag, the UART's open state and its written bytes unchanged, so does the whole run of slots |
| Pms.SampleCallKeepsControl | src/sensors/pms.cpp:66 | a slot's `readUntilSuccessful(8)` leaves the detection flag, the UART's open state and its written bytes unchanged |
| Pms.SilentWindowFails | src/sensors/pms.cpp:65-75 | a sensor that sends nothing fails every slot of the window, so the report fails |
| Pms5003Driver.Read | src/sensors/pms5003.cpp:22-42 | `PMS5003::read()` is false on a silent line, and otherwise true exactly when one of its 32 passes fills the packet with a frame that passes `is_valid()` |
| Pms5003Driver.ReadUntilSuccessful | src/sensors/pms5003.cpp:44-51 | true exactly when one of `tries` consecutive 32-pass reads succeeds; the packet is then valid |
| Pms5003Driver.Probe | src/sensors/pms5003.cpp:7-14 | `PMS5003::probe()` uses eight tries, records the outcome in `detected`, sends the forced wake-up, and closes the UART either way |
| Pms5003Driver.Report | src/sensors/pms5003.cpp:53-75 | `PMS5003::report()` appends the frame's pm1, pm25 and pm10, in that order, exactly when one of eight reads succeeds; otherwise it appends nothing |
| Pms5003Driver.FieldOfEncoded | src/sensors/pms5003.cpp:118-128 | a field on a data-word boundary reads back the word the sensor encoded there |
| Pms5003Driver.ReportDecodesFrame | src/sensors/pms5003.cpp:53-75 | a stream of fewer than 32 non-`0x42` bytes and then a frame is reported from its first read; the appended values are the words the sensor encoded and the bytes after the frame stay unread |
| Firmware.PowerOn | src/sensors/pms.cpp:3-5 | a constructed driver is undetected; its UART is closed and has written nothing |
| Firmware.DetectWith | src/main.cpp:120-134 | for any two PMS probe calls, the first one that answers true decides, SDS011 comes last, and after a PMS3003 win the PMS5003 driver is left as it was |
| Firmware.Detect | src/main.cpp:120-134 | `detectSensor()` returns PMS3003 exactly when its probe succeeds, PMS5003 exactly when the first probe fails and the second succeeds, SDS011 exactly when both PMS probes fail and the SDS011 answers, and none otherwise; a PMS3003 win leaves one forced wake-up on the line and the PMS5003 driver untouched, a PMS5003 win leaves two |
| Firmware.DetectRunsProbesInSequence | src/main.cpp:121-128 | the device after detection is the first probe's result alone when PMS3003 won, and otherwise the second probe's, run on the UART as the first left it |
| Firmware.DetectLeavesOnlyWinner | src/main.cpp:120-134 | after detection the UART is closed, only the winner's PMS driver is marked detected, and a PMS5003 driver that was never probed is untouched |
| Firmware.Start | src/main.cpp:50-63 | the `switch` of `setup()`: halts exactly when nothing was detected, begins only the detected sensor's driver, writes nothing, consumes no input, and opens the UART for a PMS driver marked detected |
| Firmware.Setup | src/main.cpp:39-64 | `setup()` calls `begin()` on exactly the driver of the detected kind, halts with no driver begun when none was detected, opens the UART for a PMS sensor, and leaves exactly the running PMS driver marked detected |
| Firmware.SetupWakeups | src/main.cpp:121-128 | after `setup()` the line holds one forced wake-up when PMS3003 won, with the PMS5003 driver as constructed, and two when PMS5003 won |
| Firmware.StartKeepsWakeups | src/main.cpp:50-63 | `begin()` writes nothing, so after power-on the session's line holds exactly the wake-ups detection wrote |
| Firmware.WakeAll | src/main.cpp:115-117 | the wake-ups log SDS011, PMS5003, PMS3003 in that order and write the SDS011's bytes, then one wake-up command per detected PMS driver, and nothing for the others |
| Firmware.ReportAndSleep | src/main.cpp:84-91 | a PMS driver's report then sleep: the window holds each slot's call result, the entries are its three columns or nothing exactly when all slots failed, the sleep goes to the link the 30 slots left, so it is written after the report and the input and packet stay where the last slot stopped, and the log gains report then sleep |
| Firmware.SdsReportAndSleep | src/main.cpp:80-83 | the SDS011 branch leaves both PMS drivers as they were, writes the SDS011's sleep bytes and logs its report then its sleep |
| Firmware.Idle | src/main.cpp:109-113 | the 300 one-second waits change no device state and log a single idle of 300 ticks |
| Firmware.ReportPhase | src/main.cpp:79-95 | the `switch` of `loop()`: the running sensor reports and sleeps, only its sleep writes to the line, and a PMS sensor's window and entries are as in `ReportAndSleep`, and the device afterwards is that driver's link after its 30 slots and the sleep command |
| Firmware.Loop | src/main.cpp:66-118 | a `loop()` pass logs report, sleep, idle for 300, then wake-ups for SDS011, PMS5003 and PMS3003, as the calls are made; for a PMS sensor the line gets the sleep command, the SDS011's wake-up bytes and one wake-up command; the entries are the window's columns or nothing exactly when all slots failed; after a PMS sensor's pass the unread input and its driver's packet are what the 30 slots left, so the next pass reads on from there; a halted firmware does nothing; the exclusive-detection invariant is kept |

## Left out

- `avg` and `sd` are left out: they are floating point and defined outside the
  core. `Pms.Report` stops at the per-kind columns of NAN/value cells those
  functions would receive.
- Pms.Report: the reported value is the column for each kind, not its mean and
  standard deviation, for the same reason.
- JSON building (ArduinoJson) is left out. A reported entry is a `Reading`
  with its kind and value, or its column.
- `Serial.printf`/`println` debug output, `M_DEBUG`, the banner and the LED are
  left out: they are output only and do not affect the sensor logic.
- The network calls (`start`, `hello`, `loop`, `report`) and the HTU21D
  driver are left out: they are foreign libraries and collaborators.
- Firmware.Loop: the data of a pass holds only the PM entries, without the
  HTU21D ones.
- `delay()` and the `readBytes` timeout are left out. The input is a fixed
  sequence that already holds every byte that will arrive. `readBytes(n)`
  takes the first `min(n, available)` of them.
- The SDS011 driver is not part of this model. Whether its probe answers is a
  parameter of `Firmware.Detect`. The bytes its `sleep()` and `wake_up()`
  write on the shared UART are a parameter of `Firmware.Loop`. Its `begin`
  and `report` appear only as events.
- Firmware.Detect: the SDS011 probe's reads and writes on the shared UART are
  not modelled, so after a detection that reached it (SDS011 or none) the
  device is what the two PMS probes left.
- Firmware.Loop: for an SDS011 session the reported entries are empty, since
  SDS011's `report()` is not part of this model.
- The packet classes behind the generic driver (`packets/*.h`) are not part of
  this model. They are a `Codec`: a frame size, `is_valid`, and three field
  readers. `readFrom(uart)` is assumed to read `size` bytes into the reset
  packet, as `readBytes` does.
- The header `pms5003.h` is not part of this model. The PM field offsets are
  a `Layout` parameter.
- `wake_up()` without an argument is taken to mean `wake_up(false)`. The
  default argument is declared in the headers, which are not part of this
  model.
- Both `while (1);` busy loops are a terminal `Halted` session: the one in
  `setup()` and the one in `loop()`'s default branch.
- The baud rates (9600, 115200) are left out: they are configuration of the
  serial hardware only.
