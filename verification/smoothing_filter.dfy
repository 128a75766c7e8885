/**
 * The smoothing filter of `read_sensor_voltage` (src/main.c:63-86).
 *
 * The filter keeps a process-wide circular window of NoOfSamples calibrated
 * voltages with a running sum and a cursor. Each call reads NoOfSamples fresh
 * voltages (so it refills the whole window), averages the window, subtracts
 * the sensor's resting output and clamps the result to the plausible band
 * [0, MaxLevel]. The calibrated reads of the ADC are the `readings` parameter.
 */
module SmoothingFilter {
  import opened Sums

  /** Size of the circular window (NO_OF_SAMPLES). */
  const NoOfSamples: nat := 150
  /** Resting output of the sensor in millivolts (DEFAULT_SENSOR_OUTPUT). */
  const SensorOutput: int := 1630
  /** Largest amplitude the filter lets through; anything outside [0, MaxLevel] reads as 0. */
  const MaxLevel: int := 150

  /** A calibrated voltage as returned by the ADC layer (`uint32_t`). */
  type Reading = x: int | 0 <= x < 0x1_0000_0000

  /** A filter output: a pulse amplitude in [0, MaxLevel]. */
  type Level = x: int | 0 <= x <= MaxLevel

  /** The three `static` variables of `read_sensor_voltage`. */
  datatype FilterState = FilterState(window: seq<Reading>, sum: int, index: int)

  /** The window has its full size, the cursor points into it, and the running sum is the window's sum. */
  predicate Valid(st: FilterState)
  {
    && |st.window| == NoOfSamples
    && 0 <= st.index < NoOfSamples
    && st.sum == Sum(st.window)
  }

  /** The zero-initialised statics before the first call. */
  function Initial(): (st: FilterState)
    ensures Valid(st)
    ensures forall i :: 0 <= i < |st.window| ==> st.window[i] == 0
  {
    var w := seq(NoOfSamples, _ => 0);
    SumConstant(w, 0);
    FilterState(w, 0, 0)
  }

  /** The slot `j` positions after `start` in the circular window, i.e. `(start + j) % NoOfSamples`. */
  function Advance(start: int, j: int): (p: int)
    requires 0 <= start < NoOfSamples && 0 <= j <= NoOfSamples
    ensures p == (start + j) % NoOfSamples
    ensures 0 <= p < NoOfSamples
  {
    if start + j < NoOfSamples then start + j else start + j - NoOfSamples
  }

  /** One iteration of the loop at src/main.c:71-79: evict the slot under the cursor, store `v`, advance. */
  function Push(st: FilterState, v: Reading): (r: FilterState)
    requires Valid(st)
    ensures Valid(r)
    ensures r.index == (st.index + 1) % NoOfSamples
    ensures r.window[st.index] == v
    ensures forall i :: 0 <= i < NoOfSamples && i != st.index ==> r.window[i] == st.window[i]
  {
    SumUpdate(st.window, st.index, v);
    FilterState(st.window[st.index := v], st.sum - st.window[st.index] + v, (st.index + 1) % NoOfSamples)
  }

  /**
   * The loop at src/main.c:71-79 after |rs| iterations: the j-th reading lands
   * j slots after the starting cursor, and slots not yet reached keep their
   * old values.
   */
  function Refill(st: FilterState, rs: seq<Reading>): (r: FilterState)
    requires Valid(st)
    requires |rs| <= NoOfSamples
    ensures Valid(r)
    ensures r.index == Advance(st.index, |rs|)
    ensures forall j :: 0 <= j < |rs| ==> r.window[Advance(st.index, j)] == rs[j]
    ensures forall j :: |rs| <= j < NoOfSamples ==>
              r.window[Advance(st.index, j)] == st.window[Advance(st.index, j)]
    decreases |rs|
  {
    if |rs| == 0 then st
    else
      var k := |rs| - 1;
      var prev := Refill(st, rs[..k]);
      assert forall j :: 0 <= j < k ==> rs[..k][j] == rs[j];
      var r := Push(prev, rs[k]);
      assert prev.index == Advance(st.index, k);
      r
  }

  /** The filter's output for a window average: offset by the resting output, zero outside [0, MaxLevel]. */
  function Clamp(averaged: int): (r: Level)
    ensures SensorOutput <= averaged <= SensorOutput + MaxLevel ==> r == averaged - SensorOutput
    ensures averaged < SensorOutput || SensorOutput + MaxLevel < averaged ==> r == 0
  {
    var d := averaged - SensorOutput;
    if d < 0 || d > MaxLevel then 0 else d
  }

  datatype SensorResult = SensorResult(output: Level, state: FilterState)

  /**
   * One call of `read_sensor_voltage` with the NoOfSamples calibrated voltages
   * it reads. The window ends up holding exactly this call's readings (see
   * CallFillsWindow), so the running sum, and with it the output, depends on
   * these readings alone, not on earlier calls.
   */
  function ReadSensorVoltage(st: FilterState, rs: seq<Reading>): (r: SensorResult)
    requires Valid(st)
    requires |rs| == NoOfSamples
    ensures Valid(r.state)
    ensures r.state.index == st.index
    ensures r.state.sum == Sum(rs)
    ensures r.output == Clamp(Sum(rs) / NoOfSamples)
    ensures 0 <= r.output <= MaxLevel
    ensures var d := Sum(rs) / NoOfSamples - SensorOutput;
            (0 <= d <= MaxLevel ==> r.output == d) && (d < 0 || MaxLevel < d ==> r.output == 0)
  {
    var st' := Refill(st, rs);
    var cut := NoOfSamples - st.index;
    Rotated(st, rs);
    assert rs == rs[..cut] + rs[cut..];
    SumConcat(rs[cut..], rs[..cut]);
    SumConcat(rs[..cut], rs[cut..]);
    SumNonNegative(rs);
    // The sum is non-negative, so Dafny's floor division agrees with C's truncating `/`.
    SensorResult(Clamp(st'.sum / NoOfSamples), st')
  }

  /**
   * After a call the window holds exactly that call's readings, rotated so
   * that reading j sits j slots after the (unchanged) cursor.
   */
  lemma CallFillsWindow(st: FilterState, rs: seq<Reading>)
    requires Valid(st)
    requires |rs| == NoOfSamples
    ensures var w := ReadSensorVoltage(st, rs).state.window;
            && (forall j :: 0 <= j < NoOfSamples ==> w[Advance(st.index, j)] == rs[j])
            && w == rs[NoOfSamples - st.index..] + rs[..NoOfSamples - st.index]
  {
    Rotated(st, rs);
  }

  /** The loop of one call rewrites every slot, leaving the readings rotated by the cursor. */
  lemma Rotated(st: FilterState, rs: seq<Reading>)
    requires Valid(st)
    requires |rs| == NoOfSamples
    ensures Refill(st, rs).window == rs[NoOfSamples - st.index..] + rs[..NoOfSamples - st.index]
  {
    var st' := Refill(st, rs);
    var cut := NoOfSamples - st.index;
    var rotated := rs[cut..] + rs[..cut];
    forall p | 0 <= p < NoOfSamples
      ensures st'.window[p] == rotated[p]
    {
      if p < st.index {
        assert Advance(st.index, cut + p) == p;
      } else {
        assert Advance(st.index, p - st.index) == p;
      }
    }
  }
}
