/**
 * The beat detector of `get_bpm` (src/main.c:148-198).
 *
 * A burst of 55 to 65 smoothed samples is collected from the filter; its
 * floored mean is the burst baseline. A left-to-right scan tracks the running
 * peak of the samples that rise more than Margin above the baseline and
 * confirms a beat when a later sample drops below the baseline. A peak still
 * open at the end adds one trailing beat, but only if a beat was already
 * confirmed. The beat count becomes beats per minute over the burst's elapsed
 * time, which is a parameter here (the source reads the clock).
 */
module BeatDetector {
  import opened Sums
  import opened SmoothingFilter

  /** Bounds of the randomised burst length (src/main.c:149). */
  const MinBurst: nat := 55
  const MaxBurst: nat := 65
  /** How far above the baseline a sample must rise to count as a peak. */
  const Margin: int := 5
  /** The source's "no active peak" value of both `peak_value` and `peak_index`. */
  const NoPeak: int := -1
  const MicrosPerMinute: int := 60_000_000

  predicate BurstLength(n: int)
  {
    MinBurst <= n <= MaxBurst
  }

  /** The burst baseline `sum / samples_number`: the floored mean of the burst. */
  function Baseline(p: seq<Level>): (b: int)
    requires BurstLength(|p|)
    ensures b * |p| <= Sum(p) < (b + 1) * |p|
  {
    SumNonNegative(p);
    // The sum is non-negative, so floor division is C's truncating `/`.
    Sum(p) / |p|
  }

  /** The baseline lies between the smallest and the largest sample of the burst. */
  lemma BaselineWithinBurst(p: seq<Level>)
    requires BurstLength(|p|)
    ensures Min(p) <= Baseline(p) <= Max(p)
  {
    SumBounds(p, Min(p), Max(p));
    DivBounds(Sum(p), |p|, Min(p), Max(p));
  }

  /** The test at src/main.c:177: the sample rises more than Margin above the baseline. */
  predicate Above(x: int, base: int)
  {
    x > base && x - base > Margin
  }

  /** The scan's variables: `beats`, `peak_value`, `peak_index`. */
  datatype ScanState = ScanState(beats: nat, peakValue: int, peakIndex: int)

  const ScanStart := ScanState(0, NoPeak, NoPeak)

  /**
   * One iteration of the scan at src/main.c:176-189 on sample `x` at position
   * `k`. A sample between the baseline and baseline + Margin (inclusive)
   * neither opens a peak nor confirms a beat.
   */
  function ScanStep(s: ScanState, k: int, x: int, base: int): (r: ScanState)
    ensures base <= x <= base + Margin ==> r == s
    ensures r.beats == s.beats || (r.beats == s.beats + 1 && x < base && s.peakIndex != NoPeak)
  {
    if Above(x, base) then
      if s.peakValue == NoPeak || x > s.peakValue then s.(peakIndex := k, peakValue := x) else s
    else if x < base && s.peakIndex != NoPeak then
      ScanState(s.beats + 1, NoPeak, NoPeak)
    else
      s
  }

  /** The scan's state after its first `k` iterations. */
  function ScanUpTo(p: seq<Level>, base: int, k: int): (s: ScanState)
    requires 0 <= k <= |p|
    ensures s.beats <= k && s.peakIndex < k
    ensures s.peakIndex != NoPeak ==> 0 <= s.peakIndex && Above(p[s.peakIndex], base)
    decreases k
  {
    if k == 0 then ScanStart else ScanStep(ScanUpTo(p, base, k - 1), k - 1, p[k - 1], base)
  }

  // A reference description of the scan, stated over the burst rather than step by step.

  /** No sample strictly between positions `j` and `k` falls below the baseline. */
  ghost predicate Undropped(p: seq<Level>, base: int, j: int, k: int)
    requires 0 <= j && k <= |p|
  {
    forall t :: j < t < k ==> p[t] >= base
  }

  /** Before position `k` some sample rose above the threshold and nothing has dropped below the baseline since. */
  ghost predicate OpenAt(p: seq<Level>, base: int, k: int)
    requires 0 <= k <= |p|
  {
    exists j :: 0 <= j < k && Above(p[j], base) && Undropped(p, base, j, k)
  }

  /** Position `k` confirms a beat: its sample is below the baseline while a peak is open. */
  ghost predicate ConfirmsAt(p: seq<Level>, base: int, k: int)
    requires 0 <= k < |p|
  {
    p[k] < base && OpenAt(p, base, k)
  }

  /** The number of confirming positions before `k`. */
  ghost function ConfirmCount(p: seq<Level>, base: int, k: int): nat
    requires 0 <= k <= |p|
    decreases k
  {
    if k == 0 then 0 else ConfirmCount(p, base, k - 1) + (if ConfirmsAt(p, base, k - 1) then 1 else 0)
  }

  /** The beat count by the reference description: confirmations, plus the trailing beat rule. */
  ghost function ReferenceBeats(p: seq<Level>): nat
    requires BurstLength(|p|)
  {
    var base := Baseline(p);
    var c := ConfirmCount(p, base, |p|);
    if OpenAt(p, base, |p|) && c != 0 then c + 1 else c
  }

  /**
   * What the scan's variables mean after `k` iterations: `peak_index` and
   * `peak_value` are -1 together; an active peak is a sample above the
   * threshold with nothing below the baseline after it, and it is the largest
   * above-threshold sample since the last confirmation; a peak is active
   * exactly when the reference says one is open; `beats` counts the
   * confirmations; and every beat used up two samples (a peak and a drop).
   */
  lemma {:induction false} ScanTracks(p: seq<Level>, base: int, k: int)
    requires 0 <= k <= |p|
    ensures var s := ScanUpTo(p, base, k);
      && (s.peakIndex == NoPeak <==> s.peakValue == NoPeak)
      && (s.peakIndex != NoPeak ==>
            && 0 <= s.peakIndex < k
            && p[s.peakIndex] == s.peakValue
            && Above(s.peakValue, base)
            && Undropped(p, base, s.peakIndex, k))
      && (forall m :: 0 <= m < k && Above(p[m], base) && Undropped(p, base, m, k) ==>
            s.peakIndex != NoPeak && p[m] <= s.peakValue)
      && (s.peakIndex != NoPeak <==> OpenAt(p, base, k))
      && s.beats == ConfirmCount(p, base, k)
      && 2 * s.beats + (if s.peakIndex != NoPeak then 1 else 0) <= k
    decreases k
  {
    if k > 0 {
      var i := k - 1;
      ScanTracks(p, base, i);
      var s := ScanUpTo(p, base, i);
      var x := p[i];
      if Above(x, base) {
        // Nothing dropped at position i, so every peak candidate before i stays undropped.
        assert forall m :: 0 <= m < i ==> (Undropped(p, base, m, k) <==> Undropped(p, base, m, i));
        assert Undropped(p, base, i, k);
        assert !ConfirmsAt(p, base, i);
      } else if x < base {
        assert forall m :: 0 <= m < i ==> !Undropped(p, base, m, k);
        if s.peakIndex != NoPeak {
          assert ConfirmsAt(p, base, i);
        } else {
          assert !ConfirmsAt(p, base, i);
        }
      } else {
        assert forall m :: 0 <= m < i ==> (Undropped(p, base, m, k) <==> Undropped(p, base, m, i));
        assert !ConfirmsAt(p, base, i);
        if s.peakIndex != NoPeak {
          assert Undropped(p, base, s.peakIndex, k);
        }
      }
    }
  }

  /**
   * The beat count of a burst (src/main.c:166-194): the scan's confirmations
   * plus the trailing beat. It agrees with the reference description, and each
   * beat needs a distinct peak and drop, so there are at most (n + 1) / 2.
   */
  function Beats(p: seq<Level>): (b: nat)
    requires BurstLength(|p|)
    ensures b == ReferenceBeats(p)
    ensures b <= (|p| + 1) / 2
  {
    var base := Baseline(p);
    var s := ScanUpTo(p, base, |p|);
    ScanTracks(p, base, |p|);
    if s.peakIndex != NoPeak && s.beats != 0 then s.beats + 1 else s.beats
  }

  /** With no sample above the threshold the scan never leaves its starting state. */
  lemma {:induction false} QuietScan(p: seq<Level>, base: int, k: int)
    requires 0 <= k <= |p|
    requires forall i :: 0 <= i < k ==> !Above(p[i], base)
    ensures ScanUpTo(p, base, k) == ScanStart
    decreases k
  {
    if k > 0 {
      QuietScan(p, base, k - 1);
    }
  }

  /** A burst in which no sample exceeds baseline + Margin has no beats. */
  lemma QuietBurst(p: seq<Level>)
    requires BurstLength(|p|)
    requires forall i :: 0 <= i < |p| ==> p[i] <= Baseline(p) + Margin
    ensures Beats(p) == 0
  {
    QuietScan(p, Baseline(p), |p|);
  }

  /** A constant burst has itself as baseline and no beats. */
  lemma ConstantBurst(p: seq<Level>, c: int)
    requires BurstLength(|p|)
    requires forall i :: 0 <= i < |p| ==> p[i] == c
    ensures Baseline(p) == c
    ensures Beats(p) == 0
  {
    SumConstant(p, c);
    DivBounds(Sum(p), |p|, c, c);
    QuietBurst(p);
  }

  lemma {:induction false} NoConfirmations(p: seq<Level>, base: int, k: int)
    requires 0 <= k <= |p|
    requires forall i :: 0 <= i < k ==> !ConfirmsAt(p, base, i)
    ensures ConfirmCount(p, base, k) == 0
    decreases k
  {
    if k > 0 {
      NoConfirmations(p, base, k - 1);
    }
  }

  /**
   * If no sample falls below the baseline after a sample above the threshold,
   * no beat is confirmed during the scan, and the trailing beat rule adds
   * nothing: a single peak that never drops back counts as 0 beats.
   */
  lemma PeakWithoutDrop(p: seq<Level>)
    requires BurstLength(|p|)
    requires forall m, t :: 0 <= m < t < |p| && Above(p[m], Baseline(p)) ==> p[t] >= Baseline(p)
    ensures Beats(p) == 0
  {
    var base := Baseline(p);
    assert forall i :: 0 <= i < |p| ==> !ConfirmsAt(p, base, i);
    NoConfirmations(p, base, |p|);
  }

  /**
   * The same computation as `Beats`, written as the source's loops: sum the
   * burst, divide, then scan with the two peak variables.
   */
  method CountBeats(pulse: seq<Level>) returns (beats: nat)
    requires BurstLength(|pulse|)
    ensures beats == Beats(pulse)
    ensures beats == ReferenceBeats(pulse)
  {
    var sum := 0;
    var i := 0;
    while i < |pulse|
      invariant 0 <= i <= |pulse|
      invariant sum == Sum(pulse[..i])
    {
      SumPrefix(pulse, i);
      sum := sum + pulse[i];
      i := i + 1;
    }
    assert pulse[..|pulse|] == pulse;
    var baseline := sum / |pulse|;

    var peakValue, peakIndex := NoPeak, NoPeak;
    beats := 0;
    var k := 0;
    while k < |pulse|
      invariant 0 <= k <= |pulse|
      invariant ScanState(beats, peakValue, peakIndex) == ScanUpTo(pulse, baseline, k)
    {
      if pulse[k] > baseline && pulse[k] - baseline > Margin {
        if peakValue == NoPeak || pulse[k] > peakValue {
          peakIndex := k;
          peakValue := pulse[k];
        }
      } else if pulse[k] < baseline && peakIndex != NoPeak {
        beats := beats + 1;
        peakIndex := NoPeak;
        peakValue := NoPeak;
      }
      k := k + 1;
    }
    if peakIndex != NoPeak && beats != 0 {
      beats := beats + 1;
    }
  }

  /**
   * `round((60.0 / secs) * beats)` with the elapsed time given in microseconds:
   * the nearest integer to the exact rate, halves rounded up.
   */
  function RawBpm(beats: nat, elapsedMicros: int): (bpm: nat)
    requires 0 < elapsedMicros
    ensures -elapsedMicros < 2 * (bpm * elapsedMicros - MicrosPerMinute * beats) <= elapsedMicros
    ensures beats == 0 ==> bpm == 0
  {
    var a, d := 2 * MicrosPerMinute * beats + elapsedMicros, 2 * elapsedMicros;
    var q := a / d;
    assert a == q * d + a % d && 0 <= a % d < d;
    assert q * d == 2 * (q * elapsedMicros);
    q
  }

  datatype Burst = Burst(samples: seq<Level>, state: FilterState)

  /** Readings grouped by filter call: each call of the sampling loop consumes NoOfSamples of them. */
  predicate Blocks(blocks: seq<seq<Reading>>)
  {
    forall j :: 0 <= j < |blocks| ==> |blocks[j]| == NoOfSamples
  }

  /**
   * The sampling loop at src/main.c:158-162: one filter call per block of
   * readings, the filter state threaded from call to call.
   */
  function SampleBurst(st: FilterState, blocks: seq<seq<Reading>>): (r: Burst)
    requires Valid(st)
    requires Blocks(blocks)
    ensures Valid(r.state)
    ensures r.state.index == st.index
    ensures |r.samples| == |blocks|
    decreases |blocks|
  {
    if |blocks| == 0 then Burst([], st)
    else
      var k := |blocks| - 1;
      var prev := SampleBurst(st, blocks[..k]);
      var call := ReadSensorVoltage(prev.state, blocks[k]);
      Burst(prev.samples + [call.output], call.state)
  }

  /** Sample j of a burst is the clamped mean of the j-th block of readings alone, whatever the filter held before. */
  lemma {:induction false} BurstSamples(st: FilterState, blocks: seq<seq<Reading>>)
    requires Valid(st)
    requires Blocks(blocks)
    ensures var r := SampleBurst(st, blocks);
            forall j :: 0 <= j < |blocks| ==> r.samples[j] == Clamp(Sum(blocks[j]) / NoOfSamples)
    decreases |blocks|
  {
    if |blocks| > 0 {
      var k := |blocks| - 1;
      assert forall j :: 0 <= j < k ==> blocks[..k][j] == blocks[j];
      BurstSamples(st, blocks[..k]);
    }
  }

  datatype BpmReading = BpmReading(bpm: nat, state: FilterState)

  /** The burst a sequence of reading blocks yields: one clamped block mean per filter call. */
  function BlockMeans(blocks: seq<seq<Reading>>): seq<Level>
    requires Blocks(blocks)
  {
    seq(|blocks|, j requires 0 <= j < |blocks| => Clamp(Sum(blocks[j]) / NoOfSamples))
  }

  /**
   * One call of `get_bpm` for a burst of `|blocks|` samples taking
   * `elapsedMicros` microseconds. The rate is the rounded rate of the
   * reference beat count of the block means, so it depends on this burst's
   * readings alone; it is bounded by the most beats a burst can hold.
   */
  function GetBpm(st: FilterState, blocks: seq<seq<Reading>>, elapsedMicros: int): (r: BpmReading)
    requires Valid(st)
    requires BurstLength(|blocks|) && Blocks(blocks)
    requires 0 < elapsedMicros
    ensures Valid(r.state)
    ensures r.state.index == st.index
    ensures r.bpm == RawBpm(ReferenceBeats(BlockMeans(blocks)), elapsedMicros)
    ensures 2 * (r.bpm * elapsedMicros) <= MicrosPerMinute * (|blocks| + 1) + elapsedMicros
  {
    var burst := SampleBurst(st, blocks);
    BurstSamples(st, blocks);
    assert burst.samples == BlockMeans(blocks);
    BpmReading(RawBpm(Beats(burst.samples), elapsedMicros), burst.state)
  }

  /** A sensor whose calibrated output never changes yields a rate of 0. */
  lemma SteadySignal(st: FilterState, blocks: seq<seq<Reading>>, elapsedMicros: int, v: Reading)
    requires Valid(st)
    requires BurstLength(|blocks|) && Blocks(blocks)
    requires 0 < elapsedMicros
    requires forall j, i :: 0 <= j < |blocks| && 0 <= i < |blocks[j]| ==> blocks[j][i] == v
    ensures GetBpm(st, blocks, elapsedMicros).bpm == 0
  {
    var burst := SampleBurst(st, blocks);
    assert forall j :: 0 <= j < |blocks| ==> burst.samples[j] == Clamp(v) by {
      BurstSamples(st, blocks);
      forall j | 0 <= j < |blocks|
        ensures Clamp(Sum(blocks[j]) / NoOfSamples) == Clamp(v)
      {
        SteadyBlock(blocks[j], v);
      }
    }
    ConstantBurst(burst.samples, Clamp(v));
  }

  lemma SteadyBlock(block: seq<Reading>, v: Reading)
    requires |block| == NoOfSamples
    requires forall i :: 0 <= i < |block| ==> block[i] == v
    ensures Sum(block) / NoOfSamples == v
  {
    SumConstant(block, v);
    DivBounds(Sum(block), NoOfSamples, v, v);
  }
}
