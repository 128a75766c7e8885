/**
 * Sums, extrema and integer-division facts over sequences of integers.
 *
 * Both rolling windows of the heart-rate pipeline keep a running sum next to
 * their slots, and both averages are integer quotients of such a sum; this
 * module holds the one definition of "the sum of a sequence" they share.
 */
module Sums {

  /** The sum of all elements, accumulated left to right as the source's loops do. */
  function Sum(s: seq<int>): int
    decreases |s|
  {
    if |s| == 0 then 0 else Sum(s[..|s| - 1]) + s[|s| - 1]
  }

  /** The largest element. */
  function Max(s: seq<int>): (m: int)
    requires |s| > 0
    ensures forall i :: 0 <= i < |s| ==> s[i] <= m
    ensures exists i :: 0 <= i < |s| && s[i] == m
    decreases |s|
  {
    if |s| == 1 then s[0]
    else
      var m' := Max(s[..|s| - 1]);
      assert forall i :: 0 <= i < |s| - 1 ==> s[..|s| - 1][i] == s[i];
      if s[|s| - 1] > m' then s[|s| - 1] else m'
  }

  /** The smallest element. */
  function Min(s: seq<int>): (m: int)
    requires |s| > 0
    ensures forall i :: 0 <= i < |s| ==> m <= s[i]
    ensures exists i :: 0 <= i < |s| && s[i] == m
    decreases |s|
  {
    if |s| == 1 then s[0]
    else
      var m' := Min(s[..|s| - 1]);
      assert forall i :: 0 <= i < |s| - 1 ==> s[..|s| - 1][i] == s[i];
      if s[|s| - 1] < m' then s[|s| - 1] else m'
  }

  /** Extending a prefix by one element adds that element to the sum. */
  lemma SumPrefix(s: seq<int>, i: int)
    requires 0 <= i < |s|
    ensures Sum(s[..i + 1]) == Sum(s[..i]) + s[i]
  {
    assert s[..i + 1][..i] == s[..i];
  }

  /** The sum distributes over concatenation. */
  lemma {:induction false} SumConcat(a: seq<int>, b: seq<int>)
    ensures Sum(a + b) == Sum(a) + Sum(b)
    decreases |b|
  {
    if |b| == 0 {
      assert a + b == a;
    } else {
      var b' := b[..|b| - 1];
      assert (a + b)[..|a + b| - 1] == a + b';
      SumConcat(a, b');
    }
  }

  /** Overwriting one slot changes the sum by the difference of the new and old values. */
  lemma {:induction false} SumUpdate(s: seq<int>, i: int, v: int)
    requires 0 <= i < |s|
    ensures Sum(s[i := v]) == Sum(s) - s[i] + v
    decreases |s|
  {
    var last := |s| - 1;
    if i == last {
      assert s[i := v][..last] == s[..last];
    } else {
      assert s[i := v][..last] == s[..last][i := v];
      SumUpdate(s[..last], i, v);
    }
  }

  /** A sequence of equal elements sums to its length times that element. */
  lemma {:induction false} SumConstant(s: seq<int>, c: int)
    requires forall i :: 0 <= i < |s| ==> s[i] == c
    ensures Sum(s) == |s| * c
    decreases |s|
  {
    if |s| > 0 {
      var last := |s| - 1;
      assert forall i :: 0 <= i < last ==> s[..last][i] == s[i];
      SumConstant(s[..last], c);
      assert Sum(s) == last * c + c;
    }
  }

  /** Elementwise bounds give bounds on the sum. */
  lemma {:induction false} SumBounds(s: seq<int>, lo: int, hi: int)
    requires forall i :: 0 <= i < |s| ==> lo <= s[i] <= hi
    ensures |s| * lo <= Sum(s) <= |s| * hi
    decreases |s|
  {
    if |s| > 0 {
      var last := |s| - 1;
      assert forall i :: 0 <= i < last ==> s[..last][i] == s[i];
      SumBounds(s[..last], lo, hi);
      assert |s| * lo == last * lo + lo;
      assert |s| * hi == last * hi + hi;
    }
  }

  /** Every element non-negative makes the sum non-negative. */
  lemma SumNonNegative(s: seq<int>)
    requires forall i :: 0 <= i < |s| ==> 0 <= s[i]
    ensures 0 <= Sum(s)
  {
    if |s| > 0 {
      SumBounds(s, 0, Max(s));
    }
  }

  /** A sequence of non-negative elements sums to zero exactly when every element is zero. */
  lemma {:induction false} SumZero(s: seq<int>)
    requires forall i :: 0 <= i < |s| ==> 0 <= s[i]
    ensures Sum(s) == 0 <==> forall i :: 0 <= i < |s| ==> s[i] == 0
    decreases |s|
  {
    if |s| > 0 {
      var last := |s| - 1;
      assert forall i :: 0 <= i < last ==> s[..last][i] == s[i];
      SumZero(s[..last]);
      SumNonNegative(s[..last]);
    }
  }

  /** A quotient by a positive divisor inherits the bounds its dividend has in multiples of the divisor. */
  lemma DivBounds(a: int, n: int, lo: int, hi: int)
    requires 0 < n
    requires n * lo <= a <= n * hi
    ensures lo <= a / n <= hi
  {
    var q, r := a / n, a % n;
    assert a == q * n + r && 0 <= r < n;
    if q < lo {
      assert q * n <= (lo - 1) * n by { MulMonotone(q, lo - 1, n); }
      assert false;
    }
    if q > hi {
      assert (hi + 1) * n <= q * n by { MulMonotone(hi + 1, q, n); }
      assert false;
    }
  }

  /** A floored quotient is the largest multiple of the divisor not above the dividend. */
  lemma FloorDiv(a: int, n: int)
    requires 0 < n
    ensures (a / n) * n <= a < (a / n + 1) * n
  {
    var q, r := a / n, a % n;
    assert a == q * n + r && 0 <= r < n;
    assert (q + 1) * n == q * n + n;
  }

  /** Multiplying by a non-negative factor preserves order. */
  lemma MulMonotone(x: int, y: int, n: int)
    requires x <= y && 0 <= n
    ensures x * n <= y * n
  {
    assert y * n - x * n == (y - x) * n;
  }
}
