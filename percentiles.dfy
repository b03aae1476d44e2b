/** `np.percentile` with numpy's default "linear" method over the flattened samples:
    sort, take the virtual index h = (n - 1) * q / 100, and interpolate between the
    two neighbouring order statistics. */
module Percentiles {
  import opened Order

  /** Linear interpolation from `x` towards `y` by the fraction `t`. */
  function Lerp(x: real, y: real, t: real): real {
    x + (y - x) * t
  }

  lemma LerpBetween(x: real, y: real, t: real)
    requires x <= y && 0.0 <= t <= 1.0
    ensures x <= Lerp(x, y, t) <= y
  {
    ScaleMonotone(y - x, 0.0, t);
    ScaleMonotone(y - x, t, 1.0);
  }

  lemma LerpMonotone(x: real, y: real, t1: real, t2: real)
    requires x <= y && t1 <= t2
    ensures Lerp(x, y, t1) <= Lerp(x, y, t2)
  {
    assert (y - x) * t2 - (y - x) * t1 == (y - x) * (t2 - t1);
  }

  lemma ScaleMonotone(k: real, q1: real, q2: real)
    requires 0.0 <= k && q1 <= q2
    ensures k * q1 <= k * q2
  {
    assert k * q2 - k * q1 == k * (q2 - q1);
  }

  /** The virtual index of percentile `q` in a sample of `n` values. */
  function VirtualIndex(n: nat, q: real): (h: real)
    requires n > 0 && 0.0 <= q <= 100.0
    ensures 0.0 <= h <= (n - 1) as real
  {
    var k := (n - 1) as real;
    var kq := k * q;
    ScaleMonotone(k, 0.0, q);
    ScaleMonotone(k, q, 100.0);
    assert 0.0 <= kq <= k * 100.0;
    kq / 100.0
  }

  lemma VirtualIndexMonotone(n: nat, q1: real, q2: real)
    requires n > 0 && 0.0 <= q1 <= q2 <= 100.0
    ensures VirtualIndex(n, q1) <= VirtualIndex(n, q2)
  {
    var k := (n - 1) as real;
    ScaleMonotone(k, q1, q2);
    var x1, x2 := k * q1, k * q2;
    assert x1 / 100.0 <= x2 / 100.0;
  }

  /** The linear rule on samples already in ascending order. At the last index the
      upper neighbour is the value itself (numpy clips it to n - 1). */
  function Linear(a: seq<real>, q: real): real
    requires |a| > 0 && 0.0 <= q <= 100.0
  {
    var h := VirtualIndex(|a|, q);
    var lo := h.Floor;
    if lo + 1 < |a| then Lerp(a[lo], a[lo + 1], h - lo as real) else a[lo]
  }

  /** The linear rule lands between the two order statistics it interpolates. */
  lemma LinearBracketed(a: seq<real>, q: real)
    requires |a| > 0 && 0.0 <= q <= 100.0 && Sorted(a)
    ensures var lo := VirtualIndex(|a|, q).Floor;
      0 <= lo < |a| && a[lo] <= Linear(a, q) && (lo + 1 < |a| ==> Linear(a, q) <= a[lo + 1])
  {
    var h := VirtualIndex(|a|, q);
    var lo := h.Floor;
    if lo + 1 < |a| {
      LerpBetween(a[lo], a[lo + 1], h - lo as real);
    }
  }

  /** For sorted data the linear rule is non-decreasing in `q`. */
  lemma LinearMonotone(a: seq<real>, q1: real, q2: real)
    requires |a| > 0 && 0.0 <= q1 <= q2 <= 100.0 && Sorted(a)
    ensures Linear(a, q1) <= Linear(a, q2)
  {
    var h1, h2 := VirtualIndex(|a|, q1), VirtualIndex(|a|, q2);
    VirtualIndexMonotone(|a|, q1, q2);
    var lo1, lo2 := h1.Floor, h2.Floor;
    assert lo1 <= lo2;
    LinearBracketed(a, q1);
    LinearBracketed(a, q2);
    if lo1 == lo2 {
      if lo1 + 1 < |a| {
        LerpMonotone(a[lo1], a[lo1 + 1], h1 - lo1 as real, h2 - lo2 as real);
      }
    } else {
      assert a[lo1 + 1] <= a[lo2];
    }
  }

  /** `np.percentile(s, q)` for a non-empty sample array. */
  function Percentile(s: seq<real>, q: real): (p: real)
    requires |s| > 0 && 0.0 <= q <= 100.0
    ensures Min(s) <= p <= Max(s)
  {
    var a := Sort(s);
    LinearMonotone(a, 0.0, q);
    LinearMonotone(a, q, 100.0);
    LinearBracketed(a, 0.0);
    LinearBracketed(a, 100.0);
    SortEnds(s);
    Linear(a, q)
  }

  /** Percentiles are ordered as their ranks are: q1 <= q2 gives p(q1) <= p(q2). */
  lemma PercentileMonotone(s: seq<real>, q1: real, q2: real)
    requires |s| > 0 && 0.0 <= q1 <= q2 <= 100.0
    ensures Percentile(s, q1) <= Percentile(s, q2)
  {
    LinearMonotone(Sort(s), q1, q2);
  }

  /** The 0th and 100th percentiles are the extrema. */
  lemma PercentileEnds(s: seq<real>)
    requires |s| > 0
    ensures Percentile(s, 0.0) == Min(s)
    ensures Percentile(s, 100.0) == Max(s)
  {
    SortEnds(s);
    assert VirtualIndex(|s|, 0.0) == 0.0;
    assert VirtualIndex(|s|, 100.0) == (|s| - 1) as real;
    LinearAtWholeIndex(Sort(s), 0.0, 0);
    LinearAtWholeIndex(Sort(s), 100.0, |s| - 1);
  }

  /** A percentile whose virtual index is a whole number is that order statistic;
      in particular the median of an odd-length sample is its middle value. */
  lemma PercentileAtWholeIndex(s: seq<real>, q: real, k: nat)
    requires |s| > 0 && 0.0 <= q <= 100.0
    requires VirtualIndex(|s|, q) == k as real
    ensures k < |s| && Percentile(s, q) == Sort(s)[k]
  {
    LinearAtWholeIndex(Sort(s), q, k);
  }

  lemma LinearAtWholeIndex(a: seq<real>, q: real, k: nat)
    requires |a| > 0 && 0.0 <= q <= 100.0
    requires VirtualIndex(|a|, q) == k as real
    ensures k < |a| && Linear(a, q) == a[k]
  {
    assert VirtualIndex(|a|, q).Floor == k;
    if k + 1 < |a| {
      assert Lerp(a[k], a[k + 1], 0.0) == a[k];
    }
  }

  /** On samples already in ascending order the percentile is the linear rule itself. */
  lemma PercentileOfSorted(s: seq<real>, q: real)
    requires |s| > 0 && 0.0 <= q <= 100.0 && Sorted(s)
    ensures Percentile(s, q) == Linear(s, q)
  {
    SortOfSorted(s);
  }
}
