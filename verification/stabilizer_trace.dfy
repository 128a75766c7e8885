/**
 * Worked traces of the BPM stabilizer from its zero-initialised state.
 */
module StabilizerTrace {
  import opened Sums
  import opened BpmStabilizer

  /** Detector results in which every step's first reading is accepted at once. */
  function Singles(vs: seq<nat>): (rss: seq<seq<nat>>)
    ensures |rss| == |vs|
    ensures forall k :: 0 <= k < |vs| ==> rss[k] == [vs[k]]
  {
    seq(|vs|, k requires 0 <= k < |vs| => [vs[k]])
  }

  /** First readings of at least RetryBelow fill the empty window slot by slot, in order. */
  lemma {:induction false} FreshReadings(vs: seq<nat>)
    requires |vs| <= WindowSize
    requires forall i :: 0 <= i < |vs| ==> vs[i] >= RetryBelow
    ensures var w := Round(Empty(), Singles(vs));
            && (forall i :: 0 <= i < |vs| ==> w.slots[i] == vs[i])
            && (forall i :: |vs| <= i < WindowSize ==> w.slots[i] == 0)
    decreases |vs|
  {
    if |vs| > 0 {
      var k := |vs| - 1;
      FreshReadings(vs[..k]);
      assert Singles(vs) == Singles(vs[..k]) + [[vs[k]]];
      var prev := Round(Empty(), Singles(vs[..k]));
      RoundSnoc(Empty(), Singles(vs[..k]), [vs[k]]);
      CountedCursor(k);
      FillSlot(prev, vs);
    }
  }

  /** Storing the next reading of `vs` into a window holding the readings before it in order. */
  lemma FillSlot(prev: BpmWindow, vs: seq<nat>)
    requires Valid(prev)
    requires 0 < |vs| <= WindowSize && prev.idx == |vs| - 1
    requires vs[|vs| - 1] >= RetryBelow
    requires forall i :: 0 <= i < |vs| - 1 ==> prev.slots[i] == vs[..|vs| - 1][i]
    requires forall i :: |vs| - 1 <= i < WindowSize ==> prev.slots[i] == 0
    ensures var w := Step(prev, [vs[|vs| - 1]]).window;
            && (forall i :: 0 <= i < |vs| ==> w.slots[i] == vs[i])
            && (forall i :: |vs| <= i < WindowSize ==> w.slots[i] == 0)
  {
    PlainInsert(prev, vs[|vs| - 1]);
  }

  /** From slot 0 the cursor after `k` advances, `k` inside the window, is slot `k`. */
  lemma {:induction false} CountedCursor(k: nat)
    requires k < WindowSize
    ensures CursorAfter(0, k) == k
  {
    if k > 0 {
      CountedCursor(k - 1);
    }
  }

  lemma FourSlots(a: int, b: int, c: int, d: int)
    ensures Sum([a, b, c, d]) == a + b + c + d
    ensures NonZeroCount([a, b, c, d])
            == (if a != 0 then 1 else 0) + (if b != 0 then 1 else 0) + (if c != 0 then 1 else 0) + (if d != 0 then 1 else 0)
  {
    assert [a, b, c, d][..3] == [a, b, c] && [a, b, c][..2] == [a, b] && [a, b][..1] == [a] && [a][..0] == [];
    assert Sum([a]) == a;
    assert Sum([a, b]) == a + b;
    assert Sum([a, b, c]) == a + b + c;
    assert NonZeroCount([a]) == (if a != 0 then 1 else 0);
    assert NonZeroCount([a, b]) == NonZeroCount([a]) + (if b != 0 then 1 else 0);
    assert NonZeroCount([a, b, c]) == NonZeroCount([a, b]) + (if c != 0 then 1 else 0);
  }

  /** Feeding 45, 50, 48 and 52 into the empty window gives sum 195 over 4 non-empty slots, average 48. */
  lemma FourReadings()
    ensures var w := Round(Empty(), Singles([45, 50, 48, 52]));
            && w == BpmWindow([45, 50, 48, 52], 195, 0)
            && NonZeroCount(w.slots) == 4
            && Average(w) == 48
  {
    FreshReadings([45, 50, 48, 52]);
    var w := Round(Empty(), Singles([45, 50, 48, 52]));
    CountedCursor(3);
    FourSlotWindow(w);
  }

  /** The window holding 45, 50, 48 and 52 with the cursor back at slot 0. */
  lemma FourSlotWindow(w: BpmWindow)
    requires Valid(w)
    requires forall i :: 0 <= i < 4 ==> w.slots[i] == [45, 50, 48, 52][i]
    requires w.idx == 0
    ensures && w == BpmWindow([45, 50, 48, 52], 195, 0)
            && NonZeroCount(w.slots) == 4
            && Average(w) == 48
  {
    assert w.slots == [45, 50, 48, 52];
    FourSlots(45, 50, 48, 52);
  }
}
