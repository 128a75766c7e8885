# Heart-rate monitor core in Dafny

This project models the signal path of an ESP32 heart-rate monitor (`src/main.c`) and proves properties of it. The path has three parts:

- **Smoothing filter** (`read_sensor_voltage`, module `SmoothingFilter`). The filter keeps a circular window of 150 calibrated voltages and a running sum. On every call it reads 150 fresh voltages, averages the window, and subtracts the sensor's resting output of 1630 mV. A result outside [0, 150] becomes 0.
- **Beat detector** (`get_bpm`, module `BeatDetector`). It collects a burst of 55 to 65 filter outputs, takes the burst's floored mean as a baseline, and scans the burst for peaks that rise more than 5 above the baseline. A beat is confirmed when a later sample drops below the baseline. The beat count is then converted to beats per minute.
- **BPM stabilizer** (one pass of the `for` loop in `app_main`, module `BpmStabilizer`). It keeps a window of 4 rates with a running sum. A first reading below 40 is retried. A retry reading below 30 clears the window if it holds any history. The accepted rate is stored and the average of the non-empty slots is reported.

Module `Sums` holds the one definition of a sequence sum shared by both windows, with its algebra. Module `StabilizerTrace` works through concrete runs of the stabilizer from its zero-initialised state.

Hardware inputs are parameters:

- The calibrated ADC voltages of one filter call are a sequence of 150 readings.
- A burst is a sequence of such blocks, one per filter call.
- The elapsed time of a burst is a number of microseconds.
- The successive results of `get_bpm` consumed by one stabilizer step are a sequence: the first call and then its retries.

The main results:

- **Filter.** After a call, the window holds exactly that call's readings, rotated by the cursor. So the running sum equals the sum of the new readings, and the output depends on them alone (`CallFillsWindow`, `ReadSensorVoltage`).
- **Beat count.** The scan's count equals an independent reference definition stated over the whole burst (`Beats`, `ScanTracks`). The reference counts the positions where a sample falls below the baseline while an above-threshold sample has had no drop since, plus the trailing-beat rule. A method written as the source's loops computes the same count (`CountBeats`).
- **Flat signals.** Flat or quiet bursts give 0 beats, and a steady sensor gives 0 BPM.
- **Stabilizer.** Every step keeps the window's sum equal to its slots. The accepted rate is always at least 30, so the division at `src/main.c:140` never divides by zero. The reported average lies between 30 and the largest slot.
- **Reset.** A reset leaves exactly one non-empty slot, and the average is then the accepted rate.

Two points of the code are easy to misread:

- `read_sensor_voltage` does not take one sample per call. It loops 150 times per call (`src/main.c:71-79`), so each call rewrites the whole window.
- The reset test at `src/main.c:121` reads `bpm_sum` after the eviction at line 112. So a reset happens only when some slot other than the one being replaced holds a rate (`ResetMeansOtherHistory`).

All divisions in the source have non-negative operands here, so Dafny's floor division coincides with C's truncating `/`.

## Model

| member | source | states |
|---|---|---|
| SmoothingFilter.Initial | src/main.c:64-66 | The zero-initialised statics form a valid filter: 150 zero slots, cursor 0, sum equal to the slots' sum. |
| SmoothingFilter.Push | src/main.c:72-78 | One loop iteration keeps the running sum equal to the window's sum. It stores the reading under the cursor, advances the cursor modulo 150 and leaves every other slot unchanged. |
| SmoothingFilter.Refill | src/main.c:71-79 | After j iterations, reading j sits j slots after the starting cursor (modulo 150), slots not yet reached keep their old values, and the sum stays equal to the window's sum. |
| SmoothingFilter.ReadSensorVoltage | src/main.c:63-86 | A call leaves the cursor where it was and the running sum equal to the sum of this call's readings. Its output is `avg - 1630` when that lies in [0, 150] and 0 otherwise, where `avg` is the floored mean of the readings. |
| SmoothingFilter.CallFillsWindow | src/main.c:71-79 | After a call the window is exactly this call's readings rotated by the cursor, whatever it held before. |
| SmoothingFilter.Clamp | src/main.c:83 | The output is the average minus the resting output 1630 when that difference lies in [0, 150], and 0 when it is negative or above 150. |
| BeatDetector.Baseline | src/main.c:168-174 | The baseline is the floored mean of the burst: `b * n <= sum < (b + 1) * n`. |
| BeatDetector.BaselineWithinBurst | src/main.c:168-174 | The baseline lies between the smallest and the largest sample of the burst. |
| BeatDetector.ScanUpTo | src/main.c:176-189 | After k iterations the scan has counted at most k beats, and an active peak sits at an earlier position whose sample is above the threshold; `ScanTracks` states the full meaning of its variables. |
| BeatDetector.ScanStep | src/main.c:177-188 | A sample within Margin above the baseline (inclusive) changes nothing. The beat count grows by at most one per sample, and only on a sample below the baseline while a peak is active. |
| BeatDetector.ScanTracks | src/main.c:166-189 | What the scan variables mean after k samples. `peak_index` and `peak_value` are -1 together. An active peak is an above-threshold sample with no drop below the baseline since, and it is the largest such sample. A peak is active exactly when the reference says one is open. `beats` equals the reference count of confirmations, and each beat used two samples. |
| BeatDetector.Beats | src/main.c:166-194 | The beat count equals the reference count: confirmations, plus one trailing beat when a peak is still open and at least one beat was confirmed. There are at most `(n + 1) / 2` beats. |
| BeatDetector.CountBeats | src/main.c:166-194 | The loops as written (sum, divide, scan, trailing beat) compute `Beats` and hence the reference count. |
| BeatDetector.QuietBurst | src/main.c:176-194 | A burst with no sample more than Margin above its baseline has 0 beats. |
| BeatDetector.ConstantBurst | src/main.c:168-194 | A constant burst has itself as baseline and 0 beats. |
| BeatDetector.PeakWithoutDrop | src/main.c:182-194 | If no sample drops below the baseline after an above-threshold sample, there are 0 beats. The trailing-beat rule does not count a lone unconfirmed peak. |
| BeatDetector.RawBpm | src/main.c:196 | The rate is the nearest integer to `60 * beats / secs`, with halves rounded up: `-e < 2 * (bpm * e - 60e6 * beats) <= e` for `e` elapsed microseconds. 0 beats give 0 BPM. |
| BeatDetector.SampleBurst | src/main.c:158-162 | One filter call per sample: the burst has one sample per block of readings, and the filter stays valid with its cursor back where it started. |
| BeatDetector.BurstSamples | src/main.c:158-162 | Sample j is the clamped mean of the j-th block of readings alone, whatever the filter held before the burst. |
| BeatDetector.GetBpm | src/main.c:148-198 | The reported rate is the rounded rate of the reference beat count of the burst's samples, each the clamped mean of its own block of readings; so it depends on this burst's readings alone. It is at most what `(n + 1) / 2` beats over the elapsed time round to, and the filter state stays valid with its cursor unchanged. |
| BeatDetector.SteadySignal | src/main.c:148-198 | A sensor whose calibrated output is the same value for the whole burst yields 0 BPM. |
| BpmStabilizer.Empty | src/main.c:103-105 | The zero-initialised window is valid and has no non-empty slot. |
| BpmStabilizer.Evict | src/main.c:112 | After eviction the sum leaves out the slot under the cursor. The slots and the cursor are unchanged. |
| BpmStabilizer.Reset | src/main.c:121-125 | The reset clears every slot and the sum and keeps the cursor. |
| BpmStabilizer.Retry | src/main.c:118-127 | The retry loop accepts the first reading of at least 30, and every reading before it is below 30. The window comes back cleared if a reading below 30 arrived while the sum was non-zero, and untouched otherwise. |
| BpmStabilizer.Accept | src/main.c:117-128 | The first reading is accepted without retry exactly when it is at least 40. Otherwise it is discarded, the accepted retry is at least 30, and the retries before it are below 30. The window is either untouched or cleared, and the cursor is kept. |
| BpmStabilizer.Insert | src/main.c:130-132 | Storing the accepted rate makes the sum equal to the slots again. It writes only the slot under the cursor and advances the cursor by one with wrap-around. At least one slot is then non-empty. |
| BpmStabilizer.NonZeroCount | src/main.c:134-138 | The loop's count `non_zero` is the number of positions whose slot is non-zero. |
| BpmStabilizer.NoNonZero | src/main.c:134-138 | With every slot empty, the non-zero count is 0. |
| BpmStabilizer.NonZeroAt | src/main.c:134-138 | Any non-empty slot makes the non-zero count at least 1. |
| BpmStabilizer.Average | src/main.c:134-140 | The average is the floored mean of the non-empty slots. It lies between 30 and the largest slot. |
| BpmStabilizer.Step | src/main.c:112-142 | One pass keeps the window valid and advances the cursor by one. It consumes one reading when the first is at least 40, and otherwise the first plus retries up to an accepted one of at least 30. It writes the accepted rate under the cursor. Every other slot is kept, or cleared on a reset. It never divides by zero, and it reports a floored average between 30 and the largest slot. |
| BpmStabilizer.Round | src/main.c:111-143 | A run of steps keeps the window valid, and the cursor advances once per step. |
| BpmStabilizer.CursorWraps | src/main.c:132 | After n advances the cursor sits at `(start + n) % 4`, so four steps bring it back to where it started. |
| BpmStabilizer.ResetMeansOtherHistory | src/main.c:112-121 | The reset test on the post-eviction sum is true exactly when some slot other than the one being replaced is non-empty. |
| BpmStabilizer.AfterReset | src/main.c:121-140 | After a reset, the accepted rate is the only non-empty slot, the sum equals it, and so does the reported average. |
| BpmStabilizer.PlainInsert | src/main.c:117 | A first reading of at least 40 is stored as it is. The sum is updated by the difference and the cursor advances; nothing else changes. |
| BpmStabilizer.SlotSumBounds | src/main.c:134-140 | The sum of slots that are empty or at least 30 lies between 30 times and `m` times the non-zero count, for any bound `m` on the slots. |
| StabilizerTrace.FreshReadings | src/main.c:111-132 | From the empty window, up to four first readings of at least 40 fill slots 0, 1, ... in order, and the rest stay empty. |
| StabilizerTrace.FourReadings | src/main.c:111-142 | From the empty window, readings 45, 50, 48 and 52 give slots [45, 50, 48, 52]. The sum is 195, all four slots are non-empty, the cursor is back at 0, and the average is 48. |

## Left out

- ADC configuration, eFuse checks and calibration (`check_efuse` and `print_char_val_type` at `src/main.c:35-61`, and lines 91-101) are left out; the calibrated voltages are parameters.
- The randomised burst length at `src/main.c:149` (`esp_random`) and the random delays at line 160 are left out. The burst length is a parameter constrained to [55, 65], and delays only affect the elapsed time, which is also a parameter.
- `gettimeofday` and the double-precision computation of `secs` and `round(...)` at `src/main.c:157`, 163-164 and 196 are not modelled bit for bit.
- BeatDetector.RawBpm: this models `round(60.0 / secs * beats)` as exact rational rounding with halves up, on an elapsed time in whole microseconds. Floating-point error in the source can differ by one near a half.
- BeatDetector.RawBpm: a non-positive elapsed time (a clock that wraps or does not advance) is excluded by its precondition. The source divides by it unguarded.
- LED toggles (`gpio_set_level`) and all `printf` output are left out as I/O.
- The endless `while (1)` loop of `app_main` is not modelled as such. `BpmStabilizer.Round` covers any finite number of loop passes.
- BpmStabilizer.Step: requires that a retry reading of at least 30 eventually comes (`CanComplete`). If none ever comes, the source blocks forever in the retry loop.
- BpmStabilizer.Step: does not model 32-bit overflow of the `int` `bpm_sum` (`src/main.c:103`, 112, 131) or of `uint32_t curr_bpm`; rates are unbounded naturals and the sum an unbounded integer. A real heart rate is a few hundred at most, so four of them stay far below 2^31.
- SmoothingFilter.ReadSensorVoltage: does not model 32-bit overflow of the `int` running sum. Readings are typed as `uint32_t` values, while real calibrated voltages stay far below the overflow range.
- The conversion of `get_bpm`'s `int` result to `uint32_t curr_bpm` is left out. Rates are natural numbers, which is what `get_bpm` returns for a positive elapsed time.
- `include/sensor.h` declares `sensor_get_heart_rate`, which `src/main.c` neither defines nor calls. It is left out.
