/** The calibration's mean: outliers are rejected by their distance from the median, measured
    in median absolute deviations. */
module FilteredMean {
  import opened Options
  import opened Samples

  const MAX_SAMPLES: nat := 128
  const MAD_FACTOR: nat := 6

  function Deviations(s: seq<int>, centre: int): (r: seq<int>)
    ensures |r| == |s|
  {
    seq(|s|, i requires 0 <= i < |s| => Abs(s[i] - centre))
  }

  /** The median absolute deviation, at least 1. */
  function Spread(s: seq<int>): (d: int)
    requires s != []
    ensures d >= 1
  {
    var mad := Median(Deviations(Sort(s), Median(s)));
    if mad < 1 then 1 else mad
  }

  function Inliers(s: seq<int>): seq<int>
    requires s != []
  {
    Near(s, Median(s), MAD_FACTOR * Spread(s))
  }

  // ---- What the rest of the samples cannot do ----

  lemma {:induction false} DeviationsWithin(s: seq<int>, centre: int, lo: int, hi: int)
    requires lo <= centre <= hi
    ensures Within(Deviations(s, centre), 0, hi - lo) >= Within(s, lo, hi)
  {
    if s != [] {
      var p := s[..|s| - 1];
      DeviationsWithin(p, centre, lo, hi);
      assert Deviations(s, centre)[..|s| - 1] == Deviations(p, centre);
    }
  }

  lemma {:induction false} DeviationsBelow(s: seq<int>, centre: int, d: int)
    ensures Within(Deviations(s, centre), 0, d) == Within(s, centre - d, centre + d)
  {
    if s != [] {
      var p := s[..|s| - 1];
      DeviationsBelow(p, centre, d);
      assert Deviations(s, centre)[..|s| - 1] == Deviations(p, centre);
    }
  }

  lemma {:induction false} WithinWider(s: seq<int>, lo: int, hi: int, lo2: int, hi2: int)
    requires lo2 <= lo && hi <= hi2
    ensures Within(s, lo2, hi2) >= Within(s, lo, hi)
  {
    if s != [] { WithinWider(s[..|s| - 1], lo, hi, lo2, hi2); }
  }

  /** If more than half of the samples lie in [lo, hi], the spread is at most its width (or 1). */
  lemma SpreadOfMajority(s: seq<int>, lo: int, hi: int)
    requires s != [] && Within(s, lo, hi) >= |s| / 2 + 1
    ensures Spread(s) <= (if hi - lo > 1 then hi - lo else 1)
  {
    var w, m := Sort(s), Median(s);
    MajorityHoldsMedian(s, lo, hi);
    SortedMajority(s, w, m, lo, hi);
  }

  lemma SortedMajority(s: seq<int>, w: seq<int>, m: int, lo: int, hi: int)
    requires s != [] && w == Sort(s) && Within(s, lo, hi) >= |s| / 2 + 1 && lo <= m <= hi
    ensures Median(Deviations(w, m)) <= hi - lo
  {
    WithinSort(s, lo, hi);
    DeviationsOfMajority(w, m, lo, hi);
  }

  lemma DeviationsOfMajority(w: seq<int>, m: int, lo: int, hi: int)
    requires w != [] && Within(w, lo, hi) >= |w| / 2 + 1 && lo <= m <= hi
    ensures Median(Deviations(w, m)) <= hi - lo
  {
    DeviationsWithin(w, m, lo, hi);
    MajorityHoldsMedian(Deviations(w, m), 0, hi - lo);
  }

  lemma {:induction false} MaxOf(s: seq<int>) returns (hi: int)
    requires forall i :: 0 <= i < |s| ==> s[i] >= 0
    ensures AllIn(s, 0, hi)
  {
    if s == [] {
      hi := 0;
    } else {
      hi := MaxOf(s[..|s| - 1]);
      if s[|s| - 1] > hi { hi := s[|s| - 1]; }
    }
  }

  lemma DeviationsMajority(w: seq<int>, m: int)
    requires w != []
    ensures Within(w, m - Median(Deviations(w, m)), m + Median(Deviations(w, m))) >= |w| / 2 + 1
  {
    var d := Deviations(w, m);
    var hi := MaxOf(d);
    MedianCoversMajority(d, 0, hi);
    DeviationsBelow(w, m, Median(d));
  }

  lemma KeptWithin(s: seq<int>, m: int, mad: int, limit: int)
    requires mad <= limit
    ensures |Near(s, m, limit)| >= Within(Sort(s), m - mad, m + mad)
  {
    WithinWider(Sort(s), m - mad, m + mad, m - limit, m + limit);
    WithinSort(s, m - limit, m + limit);
    NearIsWithin(s, m, limit);
  }

  /** More than half of the samples are always kept, whatever they are. */
  lemma MajorityIsKept(s: seq<int>)
    requires s != []
    ensures |Inliers(s)| >= |s| / 2 + 1
  {
    var w, m, limit := Sort(s), Median(s), MAD_FACTOR * Spread(s);
    var mad := Median(Deviations(w, m));
    DeviationsMajority(w, m);
    assert mad <= Spread(s) <= limit;
    KeptWithin(s, m, mad, limit);
  }

  /** The samples kept are exactly those within six times the spread of the median, each as often
      as it occurs. */
  lemma KeptExactly(s: seq<int>, v: int)
    requires s != []
    ensures multiset(Inliers(s))[v] == if -6 * Spread(s) <= v - Median(s) <= 6 * Spread(s) then multiset(s)[v] else 0
  {
    NearCounts(s, Median(s), MAD_FACTOR * Spread(s), v);
  }

  lemma NotNearer(w: seq<int>, m: int, mad: int)
    requires w != [] && mad == Median(Deviations(w, m))
    ensures Within(w, m - (mad - 1), m + (mad - 1)) <= |w| / 2
  {
    var d := Deviations(w, m);
    DeviationsBelow(w, m, mad - 1);
    if Within(d, 0, mad - 1) >= |d| / 2 + 1 { MajorityHoldsMedian(d, 0, mad - 1); }
  }

  lemma NearerThan(w: seq<int>, m: int, mad: int, spread: int)
    requires w != [] && mad == Median(Deviations(w, m)) && mad <= spread
    ensures Within(w, m - spread, m + spread) >= |w| / 2 + 1
  {
    DeviationsMajority(w, m);
    WithinWider(w, m - mad, m + mad, m - spread, m + spread);
  }

  /** More than half of the samples are within the distance of the centre, and unless it is 1, no
      more than half of them are nearer than that. */
  ghost predicate HalfWithin(s: seq<int>, centre: int, distance: int) {
    && Within(s, centre - distance, centre + distance) >= |s| / 2 + 1
    && (distance > 1 ==> Within(s, centre - (distance - 1), centre + (distance - 1)) <= |s| / 2)
  }

  lemma SpreadAbout(s: seq<int>, w: seq<int>, m: int, mad: int, spread: int)
    requires s != [] && w == Sort(s) && mad == Median(Deviations(w, m)) && spread == if mad < 1 then 1 else mad
    ensures HalfWithin(s, m, spread)
  {
    NearerThan(w, m, mad, spread);
    NotNearer(w, m, mad);
    WithinSort(s, m - spread, m + spread);
    WithinSort(s, m - (spread - 1), m + (spread - 1));
  }

  /** The spread is the median distance of the samples from their median. */
  lemma SpreadIsMedian(s: seq<int>)
    requires s != []
    ensures HalfWithin(s, Median(s), Spread(s))
  {
    var w, m := Sort(s), Median(s);
    SpreadAbout(s, w, m, Median(Deviations(w, m)), Spread(s));
  }

  function Width(lo: int, hi: int): int { if hi - lo > 1 then hi - lo else 1 }

  /** If more than half of the samples lie in [lo, hi], the mean is no further than six widths
      outside it, whatever the rest of them are. */
  lemma MeanIsRobust(s: seq<int>, lo: int, hi: int)
    requires s != [] && Within(s, lo, hi) >= |s| / 2 + 1
    ensures Inliers(s) != []
    ensures lo - 6 * Width(lo, hi) <= TruncDiv(Sum(Inliers(s)), |Inliers(s)|) <= hi + 6 * Width(lo, hi)
  {
    MajorityIsKept(s);
    MajorityHoldsMedian(s, lo, hi);
    SpreadOfMajority(s, lo, hi);
    var r := Inliers(s);
    forall i | 0 <= i < |r| ensures lo - 6 * Width(lo, hi) <= r[i] <= hi + 6 * Width(lo, hi) { assert r[i] in r; }
    MeanBounds(r, lo - 6 * Width(lo, hi), hi + 6 * Width(lo, hi));
  }

  // ---- The mean in fixed-width arithmetic ----

  const MAX_DISTANCE: int := 0x7FFF_FFFF

  /** No intermediate value leaves 32 bits: not a distance from the median, nor six times the
      spread. */
  ghost predicate NoOverflow(s: seq<int>)
    requires s != []
  {
    && AllIn(s, -MAX_DISTANCE - 1, MAX_DISTANCE)
    && AllIn(s, Median(s) - MAX_DISTANCE, Median(s) + MAX_DISTANCE)
    && MAD_FACTOR * Spread(s) <= MAX_DISTANCE
  }

  /** Samples within 357,913,941 of each other are always safe. */
  lemma CloseSamplesAreSafe(s: seq<int>, lo: int, hi: int)
    requires s != [] && AllIn(s, lo, hi) && -MAX_DISTANCE - 1 <= lo <= hi <= MAX_DISTANCE
    requires hi - lo <= 357_913_941
    ensures NoOverflow(s)
  {
    WithinAll(s, lo, hi);
    MajorityHoldsMedian(s, lo, hi);
    SpreadOfMajority(s, lo, hi);
  }

  method SortedDeviations(work: array<int>, centre: int) returns (devs: array<int>)
    requires AllIn(work[..], centre - MAX_DISTANCE, centre + MAX_DISTANCE)
    ensures devs[..] == Sort(Deviations(work[..], centre)) && fresh(devs)
  {
    devs := new int[work.Length];
    for i := 0 to work.Length
      invariant devs[..i] == Deviations(work[..i], centre)
    {
      var d := work[i] - centre;
      assert work[..][i] == work[i];
      assert Fits32(d) && Fits32(-d);
      devs[i] := if d < 0 then -d else d;
    }
    assert devs[..] == devs[..work.Length] && work[..] == work[..work.Length];
    SortInPlace(devs);
  }

  /** The median and the median absolute deviation. */
  method CentreAndSpread(samples: array<int>, n: nat) returns (med: int, mad: int)
    requires 0 < n <= samples.Length && NoOverflow(samples[..n])
    ensures med == Median(samples[..n]) && mad == Spread(samples[..n])
  {
    ghost var centre := Median(samples[..n]);
    SortWithin(samples[..n], centre - MAX_DISTANCE, centre + MAX_DISTANCE);
    var work := SortedCopy(samples, n);
    med := work[n / 2];
    var devs := SortedDeviations(work, med);
    mad := devs[n / 2];
    if mad < 1 { mad := 1; }
  }

  /** The sum and number of the samples near enough to the median. */
  method SumInliers(samples: array<int>, n: nat, med: int, limit: int) returns (sum: int, kept: nat)
    requires n <= samples.Length && AllIn(samples[..n], med - MAX_DISTANCE, med + MAX_DISTANCE)
    ensures sum == Sum(Near(samples[..n], med, limit)) && kept == |Near(samples[..n], med, limit)|
  {
    sum, kept := 0, 0;
    for i := 0 to n
      invariant kept == |Near(samples[..i], med, limit)| && sum == Sum(Near(samples[..i], med, limit))
    {
      NearStep(samples[..n], i, med, limit);
      assert samples[..n][..i] == samples[..i] && samples[..n][..i + 1] == samples[..i + 1];
      var d := samples[i] - med;
      assert samples[..n][i] == samples[i];
      assert Fits32(d) && Fits32(-d);
      if d < 0 { d := -d; }
      if d <= limit {
        sum := sum + samples[i];
        kept := kept + 1;
      }
    }
  }

  /** The mean and how many samples it rests on, or nothing for no samples or too many. */
  method Compute(samples: array<int>, n: nat) returns (r: Option<(int, nat)>)
    requires n <= samples.Length && (0 < n <= MAX_SAMPLES ==> NoOverflow(samples[..n]))
    ensures r.None? <==> n == 0 || n > MAX_SAMPLES
    ensures r.Some? ==>
      var s := samples[..n];
      && r.value.1 == |Inliers(s)| >= n / 2 + 1
      && r.value.0 == TruncDiv(Sum(Inliers(s)), |Inliers(s)|)
      && Fits32(r.value.0)
  {
    if n == 0 || n > MAX_SAMPLES { return None; }
    ghost var s := samples[..n];
    MajorityIsKept(s);
    InliersBound(s);
    var med, mad := CentreAndSpread(samples, n);
    var limit := 6 * mad;
    assert Fits32(limit);
    var sum, kept := SumInliers(samples, n, med, limit);
    if kept == 0 { return None; }
    return Some((TruncDiv(sum, kept), kept));
  }

  lemma NearStep(s: seq<int>, i: nat, centre: int, limit: int)
    requires i < |s|
    ensures var r, q := Near(s[..i], centre, limit), Near(s[..i + 1], centre, limit);
      && (Abs(s[i] - centre) <= limit ==> |q| == |r| + 1 && Sum(q) == Sum(r) + s[i])
      && (Abs(s[i] - centre) > limit ==> q == r)
  {
    assert s[..i + 1][..i] == s[..i];
    var r := Near(s[..i], centre, limit);
    assert (r + [s[i]])[..|r|] == r;
  }

  lemma InliersBound(s: seq<int>)
    requires s != [] && AllIn(s, -MAX_DISTANCE - 1, MAX_DISTANCE) && Inliers(s) != []
    ensures Fits32(TruncDiv(Sum(Inliers(s)), |Inliers(s)|))
  {
    var r := Inliers(s);
    forall i | 0 <= i < |r| ensures -MAX_DISTANCE - 1 <= r[i] <= MAX_DISTANCE {
      assert r[i] in r;
      var k :| 0 <= k < |s| && s[k] == r[i];
    }
    MeanBounds(r, -MAX_DISTANCE - 1, MAX_DISTANCE);
  }
}
