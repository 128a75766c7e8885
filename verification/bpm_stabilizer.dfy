/**
 * The BPM stabilizer: one pass of the `for` loop body in `app_main`
 * (src/main.c:111-143).
 *
 * A window of WindowSize raw rates with a running sum and a cursor. Each step
 * evicts the slot under the cursor from the sum, obtains a rate from the beat
 * detector (retrying, and possibly clearing the whole window, when the rate is
 * implausibly low), stores it, advances the cursor and reports the average of
 * the non-empty slots. The detector's successive results are the `rs`
 * parameter: `rs[0]` is the first call, `rs[1..]` the retries.
 */
module BpmStabilizer {
  import opened Sums

  /** BPM_WINDOW_SIZE. */
  const WindowSize: nat := 4
  /** A first reading below this is discarded and retried (src/main.c:117). */
  const RetryBelow: int := 40
  /** A retry reading below this is discarded too, and may clear the window (src/main.c:121, 127). */
  const ResetBelow: int := 30

  /** The `static` variables `bpm_window`, `bpm_sum` and `idx`. */
  datatype BpmWindow = BpmWindow(slots: seq<int>, sum: int, idx: int)

  /** A slot is empty (0) or holds an accepted rate. */
  predicate SlotOk(v: int)
  {
    v == 0 || v >= ResetBelow
  }

  predicate Shaped(w: BpmWindow)
  {
    && |w.slots| == WindowSize
    && 0 <= w.idx < WindowSize
    && forall i :: 0 <= i < |w.slots| ==> SlotOk(w.slots[i])
  }

  /** Between steps: the running sum is the sum of the slots. */
  predicate Valid(w: BpmWindow)
  {
    Shaped(w) && w.sum == Sum(w.slots)
  }

  /** After the eviction at src/main.c:112: the sum leaves out the slot under the cursor, which still holds its old value. */
  predicate Evicted(w: BpmWindow)
    requires Shaped(w)
  {
    w.sum == Sum(w.slots) - w.slots[w.idx]
  }

  /** The number of non-empty slots (the loop at src/main.c:134-138). */
  function NonZeroCount(s: seq<int>): (c: nat)
    ensures c == |NonZeroSlots(s)|
    decreases |s|
  {
    if |s| == 0 then 0
    else
      var last := |s| - 1;
      var c := NonZeroCount(s[..last]);
      assert NonZeroSlots(s) == NonZeroSlots(s[..last]) + (if s[last] != 0 then {last} else {});
      c + (if s[last] != 0 then 1 else 0)
  }

  /** The positions of the non-empty slots. */
  function NonZeroSlots(s: seq<int>): set<int>
  {
    set i | 0 <= i < |s| && s[i] != 0
  }

  /** The zero-initialised statics. */
  function Empty(): (w: BpmWindow)
    ensures Valid(w)
    ensures NonZeroCount(w.slots) == 0
    ensures forall i :: 0 <= i < WindowSize ==> w.slots[i] == 0
  {
    var zeros := seq(WindowSize, _ => 0);
    SumConstant(zeros, 0);
    NoNonZero(zeros);
    BpmWindow(zeros, 0, 0)
  }

  /** The eviction at src/main.c:112. */
  function Evict(w: BpmWindow): (r: BpmWindow)
    requires Valid(w)
    ensures Shaped(r) && Evicted(r)
    ensures r.slots == w.slots && r.idx == w.idx
  {
    w.(sum := w.sum - w.slots[w.idx])
  }

  /** The full reset at src/main.c:122-124: every slot and the sum become 0; the cursor stays. */
  function Reset(w: BpmWindow): (r: BpmWindow)
    requires Shaped(w)
    ensures Shaped(r) && Evicted(r)
    ensures r.idx == w.idx && r.sum == 0
    ensures forall i :: 0 <= i < WindowSize ==> r.slots[i] == 0
  {
    var zeros := seq(WindowSize, _ => 0);
    SumConstant(zeros, 0);
    BpmWindow(zeros, 0, w.idx)
  }

  /** Some reading is acceptable to the retry loop, so the loop ends. */
  predicate HasAcceptable(rs: seq<nat>)
  {
    exists j :: 0 <= j < |rs| && rs[j] >= ResetBelow
  }

  datatype Retried = Retried(window: BpmWindow, accepted: nat, consumed: nat)

  /**
   * The retry loop at src/main.c:118-127 over the detector results `rs`. It
   * accepts the first reading of at least ResetBelow, after consuming it and
   * every reading before it; if any consumed reading was below ResetBelow while
   * the sum was non-zero, the window comes back cleared, and otherwise untouched.
   */
  function Retry(w: BpmWindow, rs: seq<nat>): (r: Retried)
    requires Shaped(w) && Evicted(w)
    requires HasAcceptable(rs)
    ensures 1 <= r.consumed <= |rs|
    ensures r.accepted == rs[r.consumed - 1] && r.accepted >= ResetBelow
    ensures forall i :: 0 <= i < r.consumed - 1 ==> rs[i] < ResetBelow
    ensures r.window == if r.consumed > 1 && w.sum != 0 then Reset(w) else w
    decreases |rs|
  {
    var cur := rs[0];
    var w' := if cur < ResetBelow && w.sum != 0 then Reset(w) else w;
    if cur >= ResetBelow then Retried(w', cur, 1)
    else
      AcceptableTail(rs);
      var t := Retry(w', rs[1..]);
      Retried(t.window, t.accepted, t.consumed + 1)
  }

  lemma AcceptableTail(rs: seq<nat>)
    requires HasAcceptable(rs) && |rs| > 0 && rs[0] < ResetBelow
    ensures HasAcceptable(rs[1..])
  {
    var j :| 0 <= j < |rs| && rs[j] >= ResetBelow;
    assert rs[1..][j - 1] == rs[j];
  }

  /** The detector results suffice for one step: a first reading, and if it is retried, an acceptable retry. */
  predicate CanComplete(rs: seq<nat>)
  {
    |rs| > 0 && (rs[0] < RetryBelow ==> HasAcceptable(rs[1..]))
  }

  /**
   * The test at src/main.c:117 and the retry loop: a first reading of at least
   * RetryBelow is accepted as it is; a lower one is discarded and the retry
   * loop runs on the following readings.
   */
  function Accept(w: BpmWindow, rs: seq<nat>): (r: Retried)
    requires Shaped(w) && Evicted(w)
    requires CanComplete(rs)
    ensures Shaped(r.window) && Evicted(r.window) && r.window.idx == w.idx
    ensures 1 <= r.consumed <= |rs|
    ensures r.accepted == rs[r.consumed - 1] && r.accepted >= ResetBelow
    ensures rs[0] >= RetryBelow <==> r.consumed == 1
    ensures forall i :: 1 <= i < r.consumed - 1 ==> rs[i] < ResetBelow
    ensures r.window == if r.consumed > 2 && w.sum != 0 then Reset(w) else w
  {
    if rs[0] >= RetryBelow then Retried(w, rs[0], 1)
    else
      var t := Retry(w, rs[1..]);
      Retried(t.window, t.accepted, t.consumed + 1)
  }

  /**
   * The insertion at src/main.c:130-132: the accepted rate goes into the slot
   * under the cursor, the sum is restored to the sum of the slots, and the
   * cursor moves on by one, wrapping at WindowSize.
   */
  function Insert(w: BpmWindow, cur: int): (r: BpmWindow)
    requires Shaped(w) && Evicted(w)
    requires cur >= ResetBelow
    ensures Valid(r)
    ensures r.idx == Next(w.idx)
    ensures r.slots[w.idx] == cur
    ensures forall i :: 0 <= i < WindowSize && i != w.idx ==> r.slots[i] == w.slots[i]
    ensures NonZeroCount(r.slots) >= 1
  {
    var slots := w.slots[w.idx := cur];
    SumUpdate(w.slots, w.idx, cur);
    NonZeroAt(slots, w.idx);
    BpmWindow(slots, w.sum + cur, Next(w.idx))
  }

  /**
   * `bpm_sum / non_zero` (src/main.c:140), defined only when some slot is
   * non-empty. The floored mean of the non-empty slots lies between ResetBelow
   * and the largest slot.
   */
  function Average(w: BpmWindow): (a: int)
    requires Valid(w)
    requires NonZeroCount(w.slots) >= 1
    ensures a * NonZeroCount(w.slots) <= w.sum < (a + 1) * NonZeroCount(w.slots)
    ensures ResetBelow <= a <= Max(w.slots)
  {
    var nz := NonZeroCount(w.slots);
    SlotSumBounds(w.slots, Max(w.slots));
    DivBounds(w.sum, nz, ResetBelow, Max(w.slots));
    FloorDiv(w.sum, nz);
    // Both operands are non-negative, so floor division is C's truncating `/`.
    w.sum / nz
  }

  datatype StepResult = StepResult(window: BpmWindow, accepted: nat, average: int, consumed: nat)

  /**
   * One pass of the loop body at src/main.c:112-142. The window stays valid,
   * the accepted rate is at least ResetBelow, so the division at line 140 never
   * divides by zero, and every slot but the one written is either kept or, on
   * a reset, cleared. `consumed` says how many detector results the step used.
   */
  function Step(w: BpmWindow, rs: seq<nat>): (r: StepResult)
    requires Valid(w)
    requires CanComplete(rs)
    ensures Valid(r.window)
    ensures r.window.idx == Next(w.idx)
    ensures 1 <= r.consumed <= |rs|
    ensures r.accepted == rs[r.consumed - 1] && r.accepted >= ResetBelow
    ensures rs[0] >= RetryBelow <==> r.consumed == 1
    ensures forall i :: 1 <= i < r.consumed - 1 ==> rs[i] < ResetBelow
    ensures r.window.slots[w.idx] == r.accepted
    ensures var reset := r.consumed > 2 && w.sum - w.slots[w.idx] != 0;
            forall i :: 0 <= i < WindowSize && i != w.idx ==>
              r.window.slots[i] == if reset then 0 else w.slots[i]
    ensures NonZeroCount(r.window.slots) >= 1
    ensures r.average * NonZeroCount(r.window.slots) <= r.window.sum < (r.average + 1) * NonZeroCount(r.window.slots)
    ensures ResetBelow <= r.average <= Max(r.window.slots)
    ensures r.average == Average(r.window)
  {
    var taken := Accept(Evict(w), rs);
    var w' := Insert(taken.window, taken.accepted);
    StepResult(w', taken.accepted, Average(w'), taken.consumed)
  }

  /**
   * The `for` loop at src/main.c:111-143: one step per entry of `rss`, each
   * entry holding that step's detector results. The cursor advances once per
   * step.
   */
  function Round(w: BpmWindow, rss: seq<seq<nat>>): (r: BpmWindow)
    requires Valid(w)
    requires forall k :: 0 <= k < |rss| ==> CanComplete(rss[k])
    ensures Valid(r)
    ensures r.idx == CursorAfter(w.idx, |rss|)
    decreases |rss|
  {
    if |rss| == 0 then w
    else
      var k := |rss| - 1;
      assert forall j :: 0 <= j < k ==> rss[..k][j] == rss[j];
      var prev := Round(w, rss[..k]);
      Step(prev, rss[k]).window
  }

  /**
   * The reset test uses the sum after eviction: it is non-zero exactly when
   * some slot other than the one being replaced holds a rate.
   */
  lemma ResetMeansOtherHistory(w: BpmWindow)
    requires Valid(w)
    ensures w.sum - w.slots[w.idx] != 0 <==> exists i :: 0 <= i < WindowSize && i != w.idx && w.slots[i] != 0
  {
    var rest := w.slots[w.idx := 0];
    SumUpdate(w.slots, w.idx, 0);
    SumZero(rest);
    assert forall i :: 0 <= i < WindowSize && i != w.idx ==> rest[i] == w.slots[i];
  }

  /** After a reset, the accepted rate is the only rate in the window and is the reported average. */
  lemma AfterReset(w: BpmWindow, rs: seq<nat>)
    requires Valid(w)
    requires CanComplete(rs)
    requires var r := Step(w, rs); r.consumed > 2 && w.sum - w.slots[w.idx] != 0
    ensures var r := Step(w, rs);
            && NonZeroCount(r.window.slots) == 1
            && r.window.sum == r.accepted
            && r.average == r.accepted
  {
    var r := Step(w, rs);
    OnlyNonZero(r.window.slots, w.idx);
    assert r.window.slots == seq(WindowSize, _ => 0)[w.idx := r.accepted];
    SumUpdate(seq(WindowSize, _ => 0), w.idx, r.accepted);
    SumConstant(seq(WindowSize, _ => 0), 0);
  }

  /** A first reading of at least RetryBelow is stored as it is, without touching the other slots. */
  lemma PlainInsert(w: BpmWindow, v: nat)
    requires Valid(w) && v >= RetryBelow
    ensures Step(w, [v]).window == BpmWindow(w.slots[w.idx := v], w.sum - w.slots[w.idx] + v, (w.idx + 1) % WindowSize)
  {
    var r := Step(w, [v]);
    assert r.consumed == 1;
    assert r.window.slots == w.slots[w.idx := v];
  }

  /** A round one step longer is that step applied to the shorter round's window. */
  lemma RoundSnoc(w: BpmWindow, rss: seq<seq<nat>>, rs: seq<nat>)
    requires Valid(w)
    requires forall k :: 0 <= k < |rss| ==> CanComplete(rss[k])
    requires CanComplete(rs)
    ensures Round(w, rss + [rs]) == Step(Round(w, rss), rs).window
  {
    assert (rss + [rs])[..|rss|] == rss;
  }

  // The cursor.

  /** `(i + 1) % BPM_WINDOW_SIZE` for a cursor inside the window. */
  function Next(i: int): (j: int)
    requires 0 <= i < WindowSize
    ensures 0 <= j < WindowSize
  {
    if i + 1 == WindowSize then 0 else i + 1
  }

  /** The cursor after `n` advances from `start`. */
  function CursorAfter(start: int, n: nat): (c: int)
    requires 0 <= start < WindowSize
    ensures 0 <= c < WindowSize
  {
    if n == 0 then start else Next(CursorAfter(start, n - 1))
  }

  /** Advancing `n` times wraps around the window: the cursor lands on `(start + n) % WindowSize`. */
  lemma {:induction false} CursorWraps(start: int, n: nat)
    requires 0 <= start < WindowSize
    ensures CursorAfter(start, n) == (start + n) % WindowSize
  {
    if n > 0 {
      CursorWraps(start, n - 1);
    }
  }

  // Counting non-empty slots.

  /** All slots empty counts zero. */
  lemma {:induction false} NoNonZero(s: seq<int>)
    requires forall i :: 0 <= i < |s| ==> s[i] == 0
    ensures NonZeroCount(s) == 0
    decreases |s|
  {
    if |s| > 0 {
      NoNonZero(s[..|s| - 1]);
    }
  }

  /** A non-empty slot anywhere makes the count positive. */
  lemma {:induction false} NonZeroAt(s: seq<int>, i: int)
    requires 0 <= i < |s| && s[i] != 0
    ensures NonZeroCount(s) >= 1
    decreases |s|
  {
    if i < |s| - 1 {
      NonZeroAt(s[..|s| - 1], i);
    }
  }

  /** A sequence with a single non-empty slot counts one. */
  lemma {:induction false} OnlyNonZero(s: seq<int>, i: int)
    requires 0 <= i < |s| && s[i] != 0
    requires forall j :: 0 <= j < |s| && j != i ==> s[j] == 0
    ensures NonZeroCount(s) == 1
    decreases |s|
  {
    var last := |s| - 1;
    if i < last {
      OnlyNonZero(s[..last], i);
    } else {
      NoNonZero(s[..last]);
    }
  }

  /** Every non-empty slot holds at least ResetBelow and at most `m`, so the sum is within those multiples of the count. */
  lemma {:induction false} SlotSumBounds(s: seq<int>, m: int)
    requires forall i :: 0 <= i < |s| ==> SlotOk(s[i]) && s[i] <= m
    ensures ResetBelow * NonZeroCount(s) <= Sum(s) <= NonZeroCount(s) * m
    decreases |s|
  {
    if |s| > 0 {
      var last := |s| - 1;
      SlotSumBounds(s[..last], m);
      var c := NonZeroCount(s[..last]);
      if s[last] != 0 {
        assert (c + 1) * m == c * m + m;
      }
    }
  }
}
