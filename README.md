# STM32F103 calendar and IMU firmware: a verified Dafny model

This project models the logic inside the firmware's asynchronous tasks and its
IMU solver. It covers:

- **Calendar controller** (`src/bin/calendar.rs`):
  - the quadrature-encoder task, which corrects the 16-bit counter for
    wrap-around, accumulates the negated movement and sends it in steps of four;
  - the button task, which cycles through the setting modes 0..6 on each press
    still held after the debounce delay;
  - the software clock task, which either advances by the tick or applies an
    encoder step to the selected field, and publishes only a changed value;
  - the display's cursor lookup and weekday centring.
- **Euler-angle text** (`format_euler` in `src/bin/imu.rs` and
  `src/bin/attitude_solution.rs`): the fixed-column line that is written into a
  heapless string, then has byte 6 patched to `-` for a negative angle.
- **IMU solver** (`Mpu6050MadgwickSolver`): construction, sensor configuration,
  the 100-sample calibration, reading raw data, feeding corrected data to the
  filter, and the low-pass mode mask.
- **One-second clock example** (`examples/rtc.rs`).

Modules:

| module | file |
|---|---|
| `Wrappers` (Option, Result) | wrappers.dfy |
| `Channels` (embassy channel: clear, send, try_peek, try_receive) | channel.dfy |
| `Timestamps` (`NaiveDateTime` as a bounded millisecond count) | timestamps.dfy |
| `Encoder` (`are_update`) | encoder.dfy |
| `ModeCycler` (`key_update`) | mode.dfy |
| `SoftwareClock` (`rtc_update` of the calendar) | clock.dfy |
| `CalendarDisplay` (cursor and weekday helpers of `oled_display`) | display.dfy |
| `EulerText` (both `format_euler` functions) | euler_text.dfy |
| `ImuSolver` (`Mpu6050MadgwickSolver`) | solver.dfy |
| `RtcExample` (`rtc_update` of the example) | rtc_example.dfy |

Modelling decisions:

- **Timestamps.** A `NaiveDateTime` is a count of milliseconds since the Unix
  epoch, within chrono's range. That range runs from -262143-01-01 to
  262142-12-31 23:59:59.999. `checked_add_signed(d).unwrap_or(now)` is
  `AddOrKeep`: the sum when it is in range, otherwise `now` unchanged.
- **Integer division.** Rust's `/` and `%` truncate toward zero, while Dafny's
  are Euclidean. The encoder therefore uses `TruncDiv` and `TruncRem`, each
  specified by its own bounds.
- **Channels.** An embassy channel is a FIFO with a capacity. `Send` reports
  `false` where the real channel would suspend.
  - The button and clock tasks clear before sending, so exactly their latest
    value is pending. This makes `try_peek` (the oldest value) the value just
    published.
  - The encoder task and the example clock send without clearing. They are
    modelled as loops that return the sequence of values they send.
- **Task loops.**
  - The endless loops of `are_update` and the example `rtc_update` become
    methods over a finite trace of inputs.
  - `key_update` and the calendar's `rtc_update` become classes. Their step
    method (`OnPress`, `Tick`) runs one loop iteration on the task's state
    fields.
  - The button is a trace of presses. `Held` means the pin was still low
    after the debounce delay; `Bounce` means it was high again.
- **Sensor and filter.** The MPU6050 driver and the Madgwick filter are
  libraries outside this model. Each is a small class that answers from a
  script fixed in advance and records what it was asked to do:
  - the driver holds the upcoming readings and bus answers, and an exhausted
    script fails;
  - the filter records its inputs and fails exactly when the accelerometer
    vector is zero, which is the one error `update_imu` documents.
  - Vectors are over `real`.
- **Euler text inputs.** The floating-point angle reaches `format_euler` as
  three values: `whole = |angle| as i32`, `hundredths = (|angle|·100) as i32`,
  and the sign bit.
- **Start times.** The calendar clock starts at 2025-07-20 18:00:00
  (`CALENDAR_START_MS`). This follows the code at `src/bin/calendar.rs:328-331`;
  the comment above it gives 2025-07-18 19:38:20, which is the example clock's
  start (`EXAMPLE_START_MS`).

## Model

| member | source | states |
|---|---|---|
| Channels.Channel.constructor | src/bin/calendar.rs:66-72 | a channel starts empty with its capacity (at least 1) |
| Channels.Channel.Clear | src/bin/calendar.rs:377 | `clear` empties the queue |
| Channels.Channel.Send | src/bin/calendar.rs:378 | a send is accepted exactly when the queue is below capacity, and then appends the value at the back |
| Channels.Channel.Publish | src/bin/calendar.rs:377-378 | clear-then-send always leaves exactly the new value pending |
| Channels.Channel.TryPeek | src/bin/calendar.rs:339-341 | `try_peek` yields a value iff the queue is non-empty, namely the front, and leaves the queue as it is |
| Channels.Channel.TryReceive | src/bin/calendar.rs:345 | `try_receive` yields the front value and removes it iff the queue is non-empty, otherwise changes nothing |
| Channels.PublishOverwrites | src/bin/calendar.rs:464-465 | after three clear-then-send publications, a peek and a receive both see only the last value, and the queue is then empty |
| Timestamps.CheckedAdd | src/bin/calendar.rs:370-372 | `checked_add_signed` succeeds iff the sum lies in the representable range, and then yields the sum |
| Timestamps.AddOrKeep | src/bin/calendar.rs:370-372 | `unwrap_or(now)`: the sum when in range, otherwise `now`; an in-range time stays in range |
| Encoder.TruncDiv | src/bin/calendar.rs:425 | `/` truncates toward zero: the quotient brackets the dividend from the zero side |
| Encoder.TruncRem | src/bin/calendar.rs:426 | `%` gives the remainder of truncating division: `a == b*q + r`, with `r` strictly inside (-b, b) and carrying the dividend's sign |
| Encoder.TruncatingNotEuclidean | src/bin/calendar.rs:425-426 | at -7 and 4 the source's operators give -1 and -3, while Euclidean ones give -2 and 1 |
| Encoder.CorrectedDelta | src/bin/calendar.rs:408-418 | the wrap-corrected delta lies in [-32768, 32767] and is congruent to `curr - prev` modulo 65536 |
| Encoder.CorrectedDeltaUnique | src/bin/calendar.rs:411-418 | it is the only such value: the shortest way round the counter |
| Encoder.Poll | src/bin/calendar.rs:408-429 | after one poll: `prev_count` is the new count; the accumulator is within (-4, 4); `4*sent + acc' == acc - delta`; a value is sent iff the magnitude reached 4; a sent value is non-zero with the accumulated sign, and the remainder keeps that sign (truncation) |
| Encoder.PollOutputBound | src/bin/calendar.rs:424-425 | from a settled accumulator a single output is at most 8192 in magnitude |
| Encoder.PollAll | src/bin/calendar.rs:407-431 | after any non-empty run of polls the accumulator is within (-4, 4), `prev_count` is the last count, and no zero is ever sent |
| Encoder.Conservation | src/bin/calendar.rs:420-427 | nothing is lost: four times the sum of all values sent plus the final accumulator equals the initial accumulator minus the total corrected movement |
| Encoder.TotalDeltaCongruent | src/bin/calendar.rs:408-418 | the total corrected movement is congruent to last count minus first count modulo 65536 |
| Encoder.AreUpdate | src/bin/calendar.rs:399-431 | the task first sends 0, then exactly the values the poll sequence emits, and ends in that sequence's state |
| Encoder.WrapForwardExample | src/bin/calendar.rs:412-413 | a counter going 65534 → 2 is a forward move of 4 and sends -1 |
| Encoder.BackwardWrapExample | src/bin/calendar.rs:414-415 | counts 100 → 103 → 65530 → 65533 send 26 and leave -1 accumulated |
| ModeCycler.NextMode | src/bin/calendar.rs:461 | `(mode + 1) % 7`: every mode below 6 goes up by one, and 6 wraps to 0 |
| ModeCycler.ModeAfter | src/bin/calendar.rs:446-461 | over any press trace the mode stays in 0..6 |
| ModeCycler.ModeAfterCount | src/bin/calendar.rs:446-461 | the mode after a trace is the start plus the number of confirmed presses, modulo 7 |
| ModeCycler.FullCycle | src/bin/calendar.rs:460-461 | seven confirmed presses return the mode to where it started |
| ModeCycler.BouncesIgnored | src/bin/calendar.rs:455-458 | a trace of bounces only leaves the mode unchanged |
| ModeCycler.KeyTask.constructor | src/bin/calendar.rs:446 | the mode starts at 0 |
| ModeCycler.KeyTask.OnPress | src/bin/calendar.rs:448-468 | a bounce changes nothing and sends nothing; a held press advances the mode and leaves exactly the new mode pending |
| ModeCycler.KeyTask.Run | src/bin/calendar.rs:448-469 | after a trace the mode is `ModeAfter`; the channel holds exactly the last mode if any press was confirmed, and is untouched otherwise |
| SoftwareClock.FieldAdjustment | src/bin/calendar.rs:346-365 | an adjustment exists iff the field is 1..6 |
| SoftwareClock.ClockStep | src/bin/calendar.rs:338-373 | one step keeps the time in range; it never goes back in normal mode; in edit mode without an encoder value it changes nothing |
| SoftwareClock.ClockStepByTable | src/bin/calendar.rs:344-373 | the step's exact value against the field table (365·d days, 30·d days, d days, d hours, d minutes, d seconds), and the tick in normal mode, each discarded when out of range |
| SoftwareClock.SpawnedTick | src/bin/calendar.rs:120 | with the 30 ms interval the task is spawned with, a normal-mode tick advances exactly 30 ms while in range |
| SoftwareClock.ClockTask.constructor | src/bin/calendar.rs:327-335 | the clock starts at 2025-07-20 18:00:00, in normal mode, with `prev_time == now`; the interval is a non-negative duration |
| SoftwareClock.ClockTask.Tick | src/bin/calendar.rs:337-383 | one iteration: the field selection follows the peeked key value; the encoder value is consumed only in edit mode; `now` is the clock step, never going back in normal mode; the new time is published (clear-then-send) iff it changed, and `prev_time` follows `now` |
| CalendarDisplay.CursorIndexAsWritten | src/bin/calendar.rs:239-240 | the source's guard `set_pos != 0 && set_pos <= 6` and the `usize` index it computes |
| CalendarDisplay.NegativeFieldIndexOutOfBounds | src/bin/calendar.rs:239-240 | `set_pos = -1` passes that guard and yields index 0xFFFFFFFE, past the six-entry table |
| CalendarDisplay.CursorLine | src/bin/calendar.rs:239-240 | the cursor is drawn iff it is visible and `1 <= set_pos <= 6` |
| CalendarDisplay.CursorGuardAgreesOnPublishedFields | src/bin/calendar.rs:239-240 | on every value the button task publishes (0..6) the corrected guard and the source's agree, using `CURSOR_POSITIONS[set_pos - 1]` |
| CalendarDisplay.CursorUnderlinesField | src/bin/calendar.rs:201-214 | each cursor line is horizontal and spans exactly the columns of its field in `YYYY-MM-DD` (8-pixel glyphs) or `HH:MM:SS` (10-pixel glyphs) |
| CalendarDisplay.CursorRows | src/bin/calendar.rs:201-214 | date fields are underlined at row 18, time fields at row 40 |
| CalendarDisplay.WeekdayX | src/bin/calendar.rs:286-296 | the weekday name fits within the 128-pixel width and is centred exactly |
| EulerText.SignPatched | src/bin/imu.rs:353-358 | a negative sign overwrites byte 6 with `-`; every other byte is unchanged, and a non-negative angle leaves the text as it is |
| EulerText.UnsignedLength | src/bin/imu.rs:343-350 | the unpatched line is the name plus five characters plus the padded whole degrees, which are 3 wide iff below 1000 |
| EulerText.FitsIff | src/bin/imu.rs:340-350 | with a five-character name the line fits the 13-byte buffer iff the whole degrees are below 1000, and then it is exactly 13 long |
| EulerText.TrailingSpaceUntouched | src/bin/attitude_solution.rs:246-263 | the 14-byte variant is the 13-byte line plus a space that the sign patch never reaches |
| EulerText.Write | src/bin/imu.rs:343-350 | `write!` appends its piece to the text already in the buffer |
| EulerText.FormatEuler13 | src/bin/imu.rs:339-361 | for an ASCII name of at most 5 bytes, writing the pieces into the 13-byte buffer and patching byte 6 yields `name ": " pad3(whole) "." pad2zero(hundredths % 100)`, sign-patched |
| EulerText.FormatEuler14 | src/bin/attitude_solution.rs:246-263 | the same with a trailing space in a 14-byte buffer |
| EulerText.Layout | src/bin/imu.rs:285-287 | the three labels used are ASCII, and for each the line is 13 characters: label, `:` at 5, the sign column at 6, the padded degrees at 7..9, `.` at 10, two hundredths digits |
| EulerText.Pad3Shape | src/bin/imu.rs:345 | `{:3}` of a number below 1000 is three characters that read back as that number |
| EulerText.Pad2Shape | src/bin/imu.rs:345 | `{:02}` of a number below 100 is two digits that read back as that number |
| EulerText.RoundTrip | src/bin/imu.rs:339-360 | the label, the sign and both numbers can be read back from every line displayed |
| ImuSolver.DlpfValue | src/hardware/mpu6050_madgwick_solver.rs:215 | `dlpf_cfg & 0x07` is at most 7, equals `dlpf_cfg % 8`, and equals the input for 0..7 |
| ImuSolver.Mpu6050.GetAcc | src/hardware/mpu6050_madgwick_solver.rs:117 | driver stand-in: a read succeeds iff the next scripted reading is present, and consumes it |
| ImuSolver.Mpu6050.GetGyro | src/hardware/mpu6050_madgwick_solver.rs:120 | the same for the gyroscope |
| ImuSolver.Mpu6050.Issue | src/hardware/mpu6050_madgwick_solver.rs:70-84 | driver stand-in: each configuration transaction is recorded and succeeds iff the next bus answer is a success |
| ImuSolver.MadgwickFilter.constructor | src/hardware/mpu6050_madgwick_solver.rs:46 | the filter keeps its sample period and gain and has seen no sample |
| ImuSolver.MadgwickFilter.UpdateImu | src/hardware/mpu6050_madgwick_solver.rs:173 | filter stand-in: records the sample and fails iff the accelerometer vector is zero |
| ImuSolver.Mpu6050MadgwickSolver.constructor | src/hardware/mpu6050_madgwick_solver.rs:43-51 | zero raw readings, the built-in offsets, a fresh filter with the given period and gain |
| ImuSolver.Mpu6050MadgwickSolver.SetDlpfMode | src/hardware/mpu6050_madgwick_solver.rs:213-221 | writes the masked mode to register 0x1A and reports that write's outcome |
| ImuSolver.Mpu6050MadgwickSolver.Init | src/hardware/mpu6050_madgwick_solver.rs:66-87 | the five configuration steps are issued in order up to and including the first refused one; success iff all five are accepted |
| ImuSolver.IssuedStopsAt | src/hardware/mpu6050_madgwick_solver.rs:66-87 | a first refusal at step i means exactly i+1 steps were issued |
| ImuSolver.IssuedAll | src/hardware/mpu6050_madgwick_solver.rs:66-87 | with no refusal all steps are issued |
| ImuSolver.Mpu6050MadgwickSolver.Calibration | src/hardware/mpu6050_madgwick_solver.rs:102-137 | succeeds iff the first 100 accelerometer and gyroscope reads all succeed; then the offsets are the means, the accelerometer's less 1 g on z, and exactly 100 pairs are consumed; on the first failed read the error is returned, both offsets are unchanged, and the reads stop there |
| ImuSolver.FirstMissingAt | src/hardware/mpu6050_madgwick_solver.rs:115-121 | the calibration stops at the first sample pair with a failed read |
| ImuSolver.Mpu6050MadgwickSolver.GetData | src/hardware/mpu6050_madgwick_solver.rs:147-155 | reads the accelerometer then the gyroscope, storing each as it arrives; success iff both reads succeed; a failed gyroscope read leaves the new accelerometer reading stored; offsets are untouched |
| ImuSolver.Mpu6050MadgwickSolver.Update | src/hardware/mpu6050_madgwick_solver.rs:165-174 | passes `gyro_raw - gyro_offset` and `accel_raw - accel_offset` to the filter, changes no solver field, and fails iff the raw accelerometer equals its offset |
| ImuSolver.Mpu6050MadgwickSolver.GetAccelOffset | src/hardware/mpu6050_madgwick_solver.rs:180-182 | returns the accelerometer offset and changes nothing |
| ImuSolver.Mpu6050MadgwickSolver.GetGyroOffset | src/hardware/mpu6050_madgwick_solver.rs:188-190 | returns the gyroscope offset and changes nothing |
| ImuSolver.MeanCorrected | src/hardware/mpu6050_madgwick_solver.rs:167-170 | subtracting an offset from every sample moves their mean by exactly that offset |
| ImuSolver.CalibratedWindowMean | src/hardware/mpu6050_madgwick_solver.rs:126-134 | once corrected by the calibrated offsets, the samples of the calibration window average exactly 1 g on z for the accelerometer and zero for the gyroscope |
| ImuSolver.StationaryCalibration | src/hardware/mpu6050_madgwick_solver.rs:126-134 | for a sensor at rest (constant samples), the offsets are the sample less 1 g on z and the gyroscope sample, so that reading is corrected to pure gravity and no rotation |
| RtcExample.ExampleTimeStep | examples/rtc.rs:83-85 | each tick adds exactly one second until the range ends and then holds, and every value is in range |
| RtcExample.RtcUpdate | examples/rtc.rs:68-92 | a value is sent on every tick: the k-th is the start 2025-07-18 19:38:20 plus k seconds, saturating at the end of the range |

## Left out

- Display rendering is not modelled: the SSD1306 driver, text and line drawing, `flush`, and formatting the date and time strings. These are foreign-library I/O.
- The display task's own loop is not modelled. This covers the blink timer and its `try_receive` and `try_peek` of the time and field. Only its cursor and weekday computations are modelled.
- chrono's calendar breakdown is not modelled (year, month, day, weekday, leap years). The weekday is an input to `WeekdayX`.
- I2C, DMA, interrupts, clock configuration and peripheral start-up are hardware plumbing and are not modelled.
- The Madgwick filter's quaternion arithmetic is not modelled, nor the Euler conversion in the display programs. All f32 rounding is left out: vectors and offsets are exact reals, and the f32 offset literals are read as the decimals written.
- Scheduling is not modelled: the executor, `Ticker` and `Timer` timing, the 10 ms spacing of calibration samples, and the debounce and blink timers.
- The suspension of a `send` on a full channel is not modelled.
- Channels.Channel.Send: returns `false` on a full channel instead of suspending until there is room.
- Encoder.AreUpdate: records every value it sends, as if the channel always had room. It does not model the task blocking while the clock task has not yet drained the channel.
- SoftwareClock.ClockStep: `chrono::Duration::days` panics for a day count beyond about 1.07·10^11, that is a year step beyond about 2.9·10^8, and this is not modelled. Encoder outputs are bounded by 8192 per poll (`PollOutputBound`), so `365·d` days stays far below either figure.
- EulerText.FormatEuler13: requires the rendered text to fit the 13-byte buffer. The source panics in `unwrap` otherwise (whole degrees of 1000 or more).
- EulerText.FormatEuler14: the same precondition for the 14-byte buffer.
- EulerText.FormatEuler13: requires an ASCII name, so that character positions are byte positions. The source's `String<5>` counts UTF-8 bytes and patches byte 6; a non-ASCII label (none is passed) is not modelled.
- EulerText.FormatEuler14: the same ASCII-name precondition.
- The conversion of the float angle into whole degrees, hundredths and sign is not modelled. That covers `as i32` saturation, NaN, and `-0.0` (whose sign bit makes it print as `-  0.00`). The model takes these three values as inputs.
- ImuSolver.MadgwickFilter.UpdateImu: the stand-in does not update an orientation estimate. It fails only on a zero accelerometer vector, which is the failure `update_imu` documents; `update`'s returned quaternion is not modelled.
- The other programs and helpers of the repository are not part of this model: the GPIO and EXTI demos, the timer and QEI demo, the display demos, `simple_mpu6050` (whose `static mut` sharing is a data race), and the GPIO wrappers and traits.

## Findings

| source | as written | input that shows it | evidently intended | confidence | as-written member | corrected member |
|---|---|---|---|---|---|---|
| src/bin/calendar.rs:239-240 | the cursor guard `set_pos != 0 && set_pos <= 6` admits negative values, which then index `CURSOR_POSITIONS[set_pos as usize - 1]` out of bounds and panic | `set_pos = -1` gives index 0xFFFFFFFE | `1 <= set_pos <= 6` | not executed; the button task only publishes 0..6, so this is unreachable in the firmware as shipped | CalendarDisplay.CursorIndexAsWritten / CalendarDisplay.NegativeFieldIndexOutOfBounds | CalendarDisplay.CursorLine / CalendarDisplay.CursorGuardAgreesOnPublishedFields |
