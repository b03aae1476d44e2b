/** The Statistics Module: the "Quick Statistics" panel of the viewer (min, max,
    mean, standard deviation and the 10th/50th/90th percentiles of the flattened
    calibrated samples). The standard deviation is carried as its square, the
    population variance. */
module Statistics {
  import opened Attributes
  import opened Order
  import opened Percentiles

  datatype Stats = Stats(min: real, max: real, mean: real, variance: real, p10: real, p50: real, p90: real)

  /** `np.mean`: the sum over the count. */
  function Mean(s: seq<real>): (m: real)
    requires |s| > 0
    ensures Min(s) <= m <= Max(s)
  {
    var n := |s| as real;
    SumBounds(s, Min(s), Max(s));
    MeanBetween(Sum(s), n, Min(s), Max(s));
    Sum(s) / n
  }

  lemma MeanBetween(total: real, n: real, lo: real, hi: real)
    requires n > 0.0 && n * lo <= total <= n * hi
    ensures lo <= total / n <= hi
  {
  }

  /** The sum of squared deviations from `m`. */
  function SquaredDeviations(s: seq<real>, m: real): real {
    if s == [] then 0.0 else (s[0] - m) * (s[0] - m) + SquaredDeviations(s[1..], m)
  }

  lemma {:induction false} SquaredDeviationsNonNegative(s: seq<real>, m: real)
    ensures SquaredDeviations(s, m) >= 0.0
  {
    if s != [] {
      SquaredDeviationsNonNegative(s[1..], m);
      assert (s[0] - m) * (s[0] - m) >= 0.0;
    }
  }

  /** `np.std(...)**2`: the population variance (denominator n). */
  function Variance(s: seq<real>): (v: real)
    requires |s| > 0
    ensures v >= 0.0
  {
    SquaredDeviationsNonNegative(s, Mean(s));
    SquaredDeviations(s, Mean(s)) / |s| as real
  }

  /** The quick statistics of the calibrated samples. On an empty array the first
      `np.percentile` call raises. */
  function QuickStats(s: seq<real>): (r: Result<Stats>)
    ensures r.Err? <==> |s| == 0
    ensures r.Ok? ==> r.value == Stats(Min(s), Max(s), Mean(s), Variance(s),
                                       Percentile(s, 10.0), Percentile(s, 50.0), Percentile(s, 90.0))
    ensures r.Ok? ==> r.value.min <= r.value.p10 <= r.value.p50 <= r.value.p90 <= r.value.max
    ensures r.Ok? ==> r.value.min <= r.value.mean <= r.value.max && r.value.variance >= 0.0
    ensures r.Ok? ==> r.value.min in s && r.value.max in s
    ensures r.Ok? ==> forall i :: 0 <= i < |s| ==> r.value.min <= s[i] <= r.value.max
  {
    if |s| == 0 then Err(EmptySamples)
    else
      var p10, p50, p90 := Percentile(s, 10.0), Percentile(s, 50.0), Percentile(s, 90.0);
      PercentileMonotone(s, 10.0, 50.0);
      PercentileMonotone(s, 50.0, 90.0);
      Ok(Stats(Min(s), Max(s), Mean(s), Variance(s), p10, p50, p90))
  }

  /** The samples 1, 2, 3, 4, 5: min 1, max 5, mean 3, variance 2 (standard
      deviation the square root of 2) and median 3. */
  lemma QuickStatsOneToFive(s: seq<real>)
    requires s == seq(5, i => (i + 1) as real)
    ensures QuickStats(s) == Ok(Stats(1.0, 5.0, 3.0, 2.0, 1.4, 3.0, 4.6))
  {
    OneToFiveMoments(s);
    OneToFivePercentiles(s);
    assert Min(s) == 1.0 by {
      assert 1.0 in s;
    }
    assert Max(s) == 5.0 by {
      assert 5.0 in s;
    }
    assert QuickStats(s)
        == Ok(Stats(Min(s), Max(s), Mean(s), Variance(s),
                    Percentile(s, 10.0), Percentile(s, 50.0), Percentile(s, 90.0)));
  }

  lemma OneToFiveMoments(s: seq<real>)
    requires s == seq(5, i => (i + 1) as real)
    ensures Mean(s) == 3.0 && Variance(s) == 2.0
  {
    assert Sum(s[4..]) == 5.0 && SquaredDeviations(s[4..], 3.0) == 4.0;
    assert Sum(s[3..]) == 9.0 && SquaredDeviations(s[3..], 3.0) == 5.0 by {
      assert s[3..][1..] == s[4..];
    }
    assert Sum(s[2..]) == 12.0 && SquaredDeviations(s[2..], 3.0) == 5.0 by {
      assert s[2..][1..] == s[3..];
    }
    assert Sum(s[1..]) == 14.0 && SquaredDeviations(s[1..], 3.0) == 6.0 by {
      assert s[1..][1..] == s[2..];
    }
    assert Sum(s) == 15.0 && SquaredDeviations(s, 3.0) == 10.0;
  }

  lemma OneToFivePercentiles(s: seq<real>)
    requires s == seq(5, i => (i + 1) as real)
    ensures Percentile(s, 10.0) == 1.4 && Percentile(s, 50.0) == 3.0 && Percentile(s, 90.0) == 4.6
  {
    assert Sorted(s);
    OneToFiveAt(s, 10.0, 0.4, 0, 1.4);
    OneToFiveAt(s, 50.0, 2.0, 2, 3.0);
    OneToFiveAt(s, 90.0, 3.6, 3, 4.6);
  }

  lemma OneToFiveAt(s: seq<real>, q: real, h: real, lo: nat, p: real)
    requires s == seq(5, i => (i + 1) as real) && Sorted(s)
    requires 0.0 <= q <= 100.0 && h == 4.0 * q / 100.0 && h.Floor == lo && lo < 4
    requires p == s[lo] + (s[lo + 1] - s[lo]) * (h - lo as real)
    ensures Percentile(s, q) == p
  {
    PercentileOfSorted(s, q);
    assert VirtualIndex(5, q) == h;
  }
}
