# ESP32 stove regulator: the control cycle in Dafny

This project models the regulator sketch's core: what one pass of `loop()`
does with a thermocouple reading, and how `printStatusMessage` classifies
the MAX31855 driver's status codes.

The sketch keeps three globals: `averageTemp`, `minTemp` and `maxTemp`.
All three start at 0. Each cycle gets a status code and a reading that is
already rounded to whole degrees. Then:

- Status 129 ("no communication") leaves the globals alone.
- Any other status, including the fault codes and unknown codes, updates them:
  - If `averageTemp` is 0, the reading is taken as the first value. It seeds the average and the minimum. Zero is the only "not yet initialised" marker; there is no flag.
  - Otherwise the average moves to `(averageTemp * (avgCount - 1) + tempC) / avgCount`, with `avgCount = 2` and C++ division, which truncates toward zero.
  - `minTemp` and `maxTemp` then follow the raw reading, not the average.
- Every cycle, the 129 case included, computes the duty for the output pin: `(averageTemp - 30) * 2` clamped to [0, 255].

Modules. `StatusCodes`, `Filter`, `Actuator`, `Controller` and `Trace` model the code as written; `Seeded` is a corrected variant:

- `StatusCodes` (status_codes.dfy): the status categories, `Classify`, and the printed messages.
- `Filter` (filter.dfy): C++ truncating division `TruncDiv` and the filter step.
- `Actuator` (actuator.dfy): the duty as a function `Speed`, and the method `ComputeSpeed`. That method reassigns `speed` through the two clamps, as the sketch does.
- `Controller` (controller.dfy):
  - the specification function `Cycle` over a `State` value;
  - the invariant `Inv` (`minTemp <= averageTemp <= maxTemp` and `maxTemp >= 0`);
  - the class `Regulator`, whose fields are the three globals. Its `Step` method updates them in place and returns the duty. It is proved against `Cycle` and keeps `Inv`.
- `Trace` (trace.dfy): `Run`, one cycle per reading, as `loop()` is called again and again. It holds the lemmas about whole runs.
- `Seeded` (seeded.dfy): the corrected cycle described under Findings.

Four points where the code may surprise a reader; the model follows the code:

- The extrema track the instantaneous reading, not the filtered value.
- There is no "changed" flag and no display refresh.
- Seeding is triggered by a zero average, not by an "initialised" flag.
- Fault codes other than 129 do not freeze the state. They still go through the filter and the extrema update.

## Model

| member | source | states |
|---|---|---|
| `StatusCodes.Classify` | src/main.cpp:177-203 | total over every integer. The result is Unknown exactly when the code is not one of 0, 1, 2, 4, 7, 128, 129. Each named category maps back to the code it came from. The result is NoCommunication exactly for code 129 |
| `StatusCodes.CodeOf` | src/main.cpp:178-199 | each named category stands for one of the seven codes the switch lists |
| `StatusCodes.ClassifyCodeOf` | src/main.cpp:177-203 | round trip: classifying a category's code gives back that category, and no other code gives it |
| `StatusCodes.Message` | src/main.cpp:179-202 | each category prints one of the eight lines of the switch, and none of them is empty |
| `StatusCodes.MessagesDistinct` | src/main.cpp:179-202 | two categories print the same line exactly when they are the same category, so all eight messages differ |
| `StatusCodes.StatusMessage` | src/main.cpp:177-203 | the line printed for a code is "Unknown status code" exactly when the code is outside the seven known ones. Code 0 prints "OK" and 129 prints "No communication - check wiring" |
| `StatusCodes.StatusMessageSeparatesKnownCodes` | src/main.cpp:177-203 | two different known codes print different lines |
| `Filter.TruncDiv` | src/main.cpp:134 | C++ integer division: the remainder is smaller than the divisor in magnitude and never has the opposite sign to the dividend |
| `Filter.TruncDivUnique` | src/main.cpp:134 | those remainder conditions determine the quotient uniquely, so `TruncDiv` is the C++ quotient and nothing else |
| `Filter.FilterStep` | src/main.cpp:134 | the new average lies between the old average and the reading |
| `Filter.FilterStepIsTruncatedMean` | src/main.cpp:134 | with avgCount = 2, the step is the sum of old average and reading truncated toward zero after halving. For a non-negative sum this is the floor; for a negative sum it rounds up |
| `Filter.FilterFixedPoint` | src/main.cpp:134 | a reading equal to the average leaves it unchanged |
| `Filter.FilterContracts` | src/main.cpp:134 | the distance from the average to the reading is at least halved, rounding up, by each step |
| `Filter.FilterStallsOneAway` | src/main.cpp:134 | truncation bias: a non-negative average one below the reading stays put forever, and so does a non-positive average one above it |
| `Filter.FilterTruncatesTowardZero` | src/main.cpp:134 | where C++ and Euclidean division part: average -3 and reading 0 give -1, not -2 |
| `Actuator.Speed` | src/main.cpp:156-167 | the duty is always in [0, 255]. It is 0 for averages up to 30, `(average - 30) * 2` for 31..157, and 255 from 158 up |
| `Actuator.SpeedMonotone` | src/main.cpp:161-167 | a higher average never gives a lower duty |
| `Actuator.SpeedSlope` | src/main.cpp:161 | inside the linear band each extra degree adds exactly 2 |
| `Actuator.ComputeSpeed` | src/main.cpp:159-167 | the successive clamps of the local `speed` yield `Speed(averageTemp)` |
| `Controller.Processes` | src/main.cpp:89 | a cycle updates the globals exactly when its status is not classified as NoCommunication, that is, not code 129 |
| `Controller.Cycle` | src/main.cpp:89-145 | status 129 leaves the state unchanged. Any other status leaves the reading between the new minTemp and maxTemp. maxTemp becomes the larger of itself and the reading on processed cycles only. Outside the seeding branch, minTemp becomes the smaller of itself and the reading |
| `Controller.InitInv` | src/main.cpp:44-47 | the all-zero power-up globals satisfy the invariant |
| `Controller.CycleKeepsInv` | src/main.cpp:129-145 | every cycle keeps `minTemp <= averageTemp <= maxTemp` and `maxTemp >= 0` |
| `Controller.NoCommunicationFreezes` | src/main.cpp:89-96 | a status-129 cycle leaves all three globals as they were |
| `Controller.FaultCodesStillProcessed` | src/main.cpp:89-153 | every status other than 129 updates the globals exactly as status 0 does; none of them is classified as NoCommunication |
| `Controller.SeedingCycle` | src/main.cpp:129-132 | with a zero average, a processed reading becomes both the average and the minimum. The maximum becomes the larger of itself and the reading |
| `Controller.FilteringCycle` | src/main.cpp:133-137 | with a non-zero average, the new average is the truncated half of old average plus reading. It lies between the two |
| `Controller.ExtremaMonotone` | src/main.cpp:139-145 | maxTemp never decreases on any cycle. minTemp never increases when the average was non-zero |
| `Controller.Regulator.constructor` | src/main.cpp:44-47 | the globals start at 0, 0, 0 and satisfy the invariant |
| `Controller.Regulator.Step` | src/main.cpp:89-167 | the new globals are `Cycle` of the old ones, and the invariant is kept. The returned duty is `Speed` of the new average. On status 129 it is `Speed` of the stale average |
| `Trace.Run` | src/main.cpp:83-175 | repeated calls of loop(), one per reading: maxTemp never falls over a run, and when the last reading was processed it lies between the final minTemp and maxTemp |
| `Trace.RunKeepsInv` | src/main.cpp:83-175 | the invariant holds after any number of cycles |
| `Trace.RunWithoutCommunication` | src/main.cpp:89-96 | a stretch of status-129 cycles changes nothing |
| `Trace.RunMaxIsPeak` | src/main.cpp:143-145 | after a run, maxTemp is at least its start value and every processed reading. It equals the start value or one of those readings |
| `Trace.RunMaxFromPowerUp` | src/main.cpp:47 | from power-up, maxTemp is the largest processed reading, or 0 when none is larger |
| `Trace.ZeroAverageReseeds` | src/main.cpp:129-132 | readings 5, -5, 10 end in state (10, 10, 10): the third reading re-seeds, and minTemp forgets the -5 |
| `Trace.MaxNeverSeeded` | src/main.cpp:143-145 | a single reading of -5 ends in state (-5, -5, 0): maxTemp is a value never read |
| `Seeded.SeededCycle` | src/main.cpp:129-145 | corrected cycle. Status 129 changes nothing. A processed reading leaves the state seeded, with the reading between minTemp and maxTemp |
| `Seeded.AgreesWithCycleWhileNonZero` | src/main.cpp:133-145 | once seeded with a non-zero average, the corrected cycle and the code take the same step |
| `Seeded.FirstCycleAgrees` | src/main.cpp:129-145 | from power-up, a first reading that is not negative is handled the same by both |
| `Seeded.SeededRunExtrema` | src/main.cpp:129-145 | over any corrected run, every processed reading lies within the final extrema, and the extrema only widen. Once seeded, each extremum is its seeded start value or a processed reading |
| `Seeded.SeededExtremaExact` | src/main.cpp:129-145 | from power-up, once anything has been processed, minTemp and maxTemp are exactly the smallest and the largest processed reading |

## Findings

| source | as written | input that shows it | evidently intended | confidence | as-written member | corrected member |
|---|---|---|---|---|---|---|
| src/main.cpp:129-132 | `averageTemp == 0` marks "first value", so any later cycle whose average has come back to 0 re-seeds the average and minTemp | status 0 with readings 5, -5, 10: the average goes 5, 0, then 10, and minTemp ends at 10 although -5 was read | seed only on the first processed reading, so that minTemp is the smallest reading since power-up | medium (not executed) | `Trace.ZeroAverageReseeds` | `Seeded.SeededExtremaExact` |
| src/main.cpp:47 | maxTemp is never seeded and starts at 0 | status 0 with the single reading -5: maxTemp stays 0, a value never read | seed maxTemp with the first reading, as minTemp is | low (not executed) | `Trace.MaxNeverSeeded` | `Seeded.SeededExtremaExact` |

The class `Controller.Regulator` and the `Trace` lemmas model the code as
written. The corrected behaviour lives in the `Seeded` module. It uses an
explicit seeded flag and seeds all three globals from the first processed
reading.

## Left out

- The hardware and foreign calls are not modelled: serial printing, `setup()`, SPI and MAX31855 driver initialisation, `micros()` timing, `analogWrite`, `delay`. `Step` returns the duty rather than writing it to a pin, and `StatusMessage` returns the text rather than printing it.
- The sensor read and the float conversion are not modelled: `thermoCouple.read()`, `getTemperature()`, and the `round` / `static_cast<int>` of the float. `Step` takes the status code and the rounded integer reading as inputs, since floating point is outside the model.
- The commented-out raw-bit and internal-temperature diagnostics are dead code.
- The unused `tempMax` constant (60) plays no part in the speed calculation. No input clamp is invented from it.
- 32-bit `int` overflow is not modelled. Temperatures and the product `(averageTemp - 30) * 2` are mathematical integers; a thermocouple's range is far from the 32-bit limits.
- The `STATUS_NO_COMMUNICATION` value, 129, comes from the MAX31855 library header. That header is not part of this model; the value is taken from the `case 129` of the message switch.
- The infinite repetition of `loop()` by the Arduino runtime is modelled only as the function `Trace.Run` over a finite sequence of readings.
