/** The statistics of one ranging batch on an anchor: mean and deviation of the exchanges near
    the median. */
module BatchStats {
  import opened Options
  import opened Samples

  const MAX_EXCHANGES: nat := 64
  const REJECT_MM: nat := 300
  const DEADLINE_MS: int := 700

  function Kept(s: seq<int>): seq<int>
    requires s != []
  {
    Near(s, Median(s), REJECT_MM)
  }

  function Mean(s: seq<int>): int
    requires s != [] && Kept(s) != []
  {
    TruncDiv(Sum(Kept(s)), |Kept(s)|)
  }

  function Sq(x: int): (r: nat) {
    if x >= 0 then NatSq(x) else NatSq(-x)
  }

  function NatSq(x: nat): (r: nat)
    ensures r == x * x
  {
    x * x
  }

  /** The sum of squared distances from a centre. */
  function Scatter(s: seq<int>, centre: int): nat {
    if s == [] then 0 else Scatter(s[..|s| - 1], centre) + Sq(s[|s| - 1] - centre)
  }

  ghost predicate IsFloorRoot(r: nat, v: nat) { NatSq(r) <= v < NatSq(r + 1) }

  // ---- Bounds that hold for every batch ----

  lemma KeptSome(s: seq<int>)
    requires s != []
    ensures Kept(s) != [] && AllIn(Kept(s), Median(s) - REJECT_MM, Median(s) + REJECT_MM)
  {
    MedianIn(s);
    assert Median(s) in Kept(s);
    forall i | 0 <= i < |Kept(s)| ensures Abs(Kept(s)[i] - Median(s)) <= REJECT_MM { assert Kept(s)[i] in Kept(s); }
  }

  lemma MeanNearMedian(s: seq<int>)
    requires s != []
    ensures Kept(s) != [] && Abs(Mean(s) - Median(s)) <= REJECT_MM
  {
    KeptSome(s);
    MeanBounds(Kept(s), Median(s) - REJECT_MM, Median(s) + REJECT_MM);
  }

  function Product(a: int, b: int): int { a * b }

  lemma SquareShift(t: int, e: int)
    ensures Sq(t - e) == Sq(t) - 2 * Product(e, t) + Sq(e)
  {
    assert (t - e) * (t - e) == t * t - 2 * (e * t) + e * e;
  }

  lemma ProductSum(e: int, a: int, b: int)
    ensures Product(e, a + b) == Product(e, a) + Product(e, b)
  {}

  lemma ProductNext(k: nat, q: int)
    ensures Product(k + 1, q) == Product(k, q) + q
  {}

  /** Moving the centre of a scatter. */
  lemma {:induction false} ScatterShift(s: seq<int>, m: int, e: int)
    ensures Scatter(s, m + e) == Scatter(s, m) - 2 * Product(e, Sum(s) - Product(|s|, m)) + Product(|s|, Sq(e))
  {
    if s == [] {
      ProductSum(e, 0, 0);
    } else {
      var p, x := s[..|s| - 1], s[|s| - 1];
      ScatterShift(p, m, e);
      SquareShift(x - m, e);
      ProductSum(e, Sum(p) - Product(|p|, m), x - m);
      ProductNext(|p|, m);
      ProductNext(|p|, Sq(e));
    }
  }

  lemma {:induction false} ScatterBound(s: seq<int>, m: int)
    requires AllIn(s, m - REJECT_MM, m + REJECT_MM)
    ensures Scatter(s, m) <= 90000 * |s|
  {
    if s != [] {
      ScatterBound(s[..|s| - 1], m);
      SqBound(s[|s| - 1] - m);
    }
  }

  lemma NatSqMono(a: nat, b: nat)
    requires a <= b
    ensures NatSq(a) <= NatSq(b)
  {
    assert b * b - a * a == (b - a) * (b + a);
  }

  lemma SqBound(d: int)
    requires -300 <= d <= 300
    ensures Sq(d) <= 90000
  {
    NatSqMono(Abs(d), 300);
    assert NatSq(300) == 90000;
  }

  /** How far the centre can be from the true mean of the offsets, and what that adds. */
  lemma ShiftCost(k: nat, e: int, t: int, q: int)
    requires k > 0 && t == Product(k, e) + q && Abs(q) <= k - 1
    ensures Product(k, Sq(e)) - 2 * Product(e, t) <= k - 2 || e == 0
  {
    var a := Abs(e);
    assert Product(e, t) == Product(k, Sq(e)) + Product(e, q) by { Expand(k, e, q); }
    assert -Product(e, q) <= a * (k - 1) by { AbsProduct(e, q, k - 1); }
    if a == 1 {
      assert Sq(e) == 1 && Product(k, 1) == k;
    } else if a >= 2 {
      LargeShift(k, a);
      assert Sq(e) == a * a;
    }
  }

  lemma Expand(k: nat, e: int, q: int)
    ensures Product(e, Product(k, e) + q) == Product(k, Sq(e)) + Product(e, q)
  {
    assert e * (k * e + q) == k * (e * e) + e * q;
  }

  lemma AbsProduct(e: int, q: int, b: int)
    requires Abs(q) <= b
    ensures -Product(e, q) <= Abs(e) * b
  {
    if e >= 0 { assert e * (q + b) >= 0; } else { assert (-e) * (b - q) >= 0; }
  }

  lemma LargeShift(k: nat, a: nat)
    requires a >= 2 && k >= 1
    ensures 2 * (a * (k - 1)) - k * (a * a) <= k - 2
  {
    var b := a - 2;
    assert k * (a * a) == 2 * (k * a) + k * (a * b);
    assert 2 * (a * (k - 1)) == 2 * (k * a) - 2 * a;
    assert k * (a * b) >= 0;
  }

  lemma ScatterAt(r: seq<int>, k: nat, m: int, mean: int)
    requires r != [] && k == |r| && AllIn(r, m - REJECT_MM, m + REJECT_MM) && mean == TruncDiv(Sum(r), k)
    ensures Scatter(r, mean) / k <= 90000
  {
    var e, t := mean - m, Sum(r) - Product(k, m);
    ScatterShift(r, m, e);
    ScatterBound(r, m);
    TruncRemainder(Sum(r), k);
    var q := Sum(r) - Product(mean, k);
    Regroup(k, m, mean);
    ShiftCost(k, e, t, q);
    ZeroShift(k, t);
    DivBound(Scatter(r, mean), k);
  }

  lemma Regroup(k: nat, m: int, mean: int)
    ensures Product(mean, k) == Product(k, mean - m) + Product(k, m)
  {
    assert mean * k == k * (mean - m) + k * m;
  }

  lemma ZeroShift(k: nat, t: int)
    ensures Product(k, Sq(0)) == 0 && Product(0, t) == 0
  {}

  lemma DivBound(x: nat, k: nat)
    requires k > 0 && x <= 90000 * k + k - 1
    ensures x / k <= 90000
  {
    var q := x / k;
    assert x == q * k + x % k;
    assert q >= 90001 ==> q * k >= 90001 * k;
  }

  /** The mean squared deviation of the kept exchanges from their truncated mean is at most 300². */
  lemma ScatterOfKept(s: seq<int>)
    requires s != []
    ensures Kept(s) != [] && Scatter(Kept(s), Mean(s)) / |Kept(s)| <= 90000
  {
    KeptSome(s);
    ScatterAt(Kept(s), |Kept(s)|, Median(s), Mean(s));
  }

  /** So the deviation reported is at most 300, and 16 bits always hold it. */
  lemma RootBound(r: nat, v: nat)
    requires NatSq(r) <= v <= 90000
    ensures r <= 300
  {
    if r > 300 { NatSqMono(301, r); }
    assert NatSq(301) == 90601;
  }

  /** The exchanges kept are exactly those within 300 mm of the median, each as often as it occurs. */
  lemma KeptExactly(s: seq<int>, v: int)
    requires s != []
    ensures multiset(Kept(s))[v] == if -300 <= v - Median(s) <= 300 then multiset(s)[v] else 0
  {
    NearCounts(s, Median(s), REJECT_MM, v);
  }

  // ---- The statistics, and how a batch is collected ----

  /** Every distance from the median fits 32 bits, in either sign. */
  ghost predicate NoOverflow(s: seq<int>) {
    s != [] ==> forall i :: 0 <= i < |s| ==> Fits32(s[i] - Median(s)) && Fits32(Median(s) - s[i])
  }

  /** The deviation of some exchanges from their mean; of a single one it is 0. */
  ghost predicate IsDeviation(r: seq<int>, mean: int, sd: nat)
    requires r != []
  {
    if |r| > 1 then IsFloorRoot(sd, Scatter(r, mean) / |r|) else sd == 0
  }

  method SumKept(s: array<int>, n: nat, median: int) returns (sum: int, kept: nat)
    requires n <= s.Length && forall i :: 0 <= i < n ==> Fits32(s[i] - median) && Fits32(median - s[i])
    ensures sum == Sum(Near(s[..n], median, REJECT_MM)) && kept == |Near(s[..n], median, REJECT_MM)|
  {
    sum, kept := 0, 0;
    for i := 0 to n
      invariant kept == |Near(s[..i], median, REJECT_MM)| && sum == Sum(Near(s[..i], median, REJECT_MM))
    {
      NearNext(s[..n], i, median, 0);
      assert s[..n][..i] == s[..i] && s[..n][..i + 1] == s[..i + 1];
      var dev := s[i] - median;
      if dev < 0 { dev := -dev; }
      if dev <= REJECT_MM {
        sum := sum + s[i];
        kept := kept + 1;
      }
    }
  }

  method ScatterKept(s: array<int>, n: nat, median: int, mean: int) returns (v: nat)
    requires n <= s.Length
    ensures v == Scatter(Near(s[..n], median, REJECT_MM), mean)
  {
    v := 0;
    for i := 0 to n
      invariant v == Scatter(Near(s[..i], median, REJECT_MM), mean)
    {
      NearNext(s[..n], i, median, mean);
      assert s[..n][..i] == s[..i] && s[..n][..i + 1] == s[..i + 1];
      var dev := s[i] - median;
      if dev < 0 { dev := -dev; }
      if dev <= REJECT_MM { v := v + Sq(s[i] - mean); }
    }
  }

  lemma NearNext(s: seq<int>, i: nat, centre: int, mean: int)
    requires i < |s|
    ensures var r, q := Near(s[..i], centre, REJECT_MM), Near(s[..i + 1], centre, REJECT_MM);
      && (Abs(s[i] - centre) <= REJECT_MM ==>
          |q| == |r| + 1 && Sum(q) == Sum(r) + s[i] && Scatter(q, mean) == Scatter(r, mean) + Sq(s[i] - mean))
      && (Abs(s[i] - centre) > REJECT_MM ==> q == r)
  {
    assert s[..i + 1][..i] == s[..i];
    var r := Near(s[..i], centre, REJECT_MM);
    assert (r + [s[i]])[..|r|] == r;
  }

  method FloorRoot(v: nat) returns (r: nat)
    ensures IsFloorRoot(r, v)
  {
    r := 0;
    while NatSq(r + 1) <= v
      invariant NatSq(r) <= v
      decreases v - r
    {
      r := r + 1;
    }
  }

  method Deviation(s: array<int>, n: nat, median: int, mean: int, kept: nat) returns (sd: nat)
    requires n <= s.Length && kept > 0 && kept == |Near(s[..n], median, REJECT_MM)|
    ensures IsDeviation(Near(s[..n], median, REJECT_MM), mean, sd)
  {
    ghost var near := Near(s[..n], median, REJECT_MM);
    var scatter := ScatterKept(s, n, median, mean);
    sd := 0;
    if kept > 1 {
      var variance := scatter / kept;
      sd := FloorRoot(variance);
      assert variance == Scatter(near, mean) / |near|;
    }
  }

  lemma DeviationBound(s: seq<int>, sd: nat)
    requires s != [] && Kept(s) != [] && IsDeviation(Kept(s), Mean(s), sd)
    ensures sd <= 300
  {
    ScatterOfKept(s);
    if |Kept(s)| > 1 { RootBound(sd, Scatter(Kept(s), Mean(s)) / |Kept(s)|); }
  }

  method Stats(s: array<int>, n: nat) returns (kept: int, mean: int, sd: int)
    requires n <= MAX_EXCHANGES && n <= s.Length && NoOverflow(s[..n])
    ensures n == 0 ==> kept == 0 && mean == 0 && sd == 0
    ensures n > 0 ==>
      && kept == |Kept(s[..n])| >= 1
      && mean == Mean(s[..n]) && Abs(mean - Median(s[..n])) <= 300
      && 0 <= sd <= 300 && IsDeviation(Kept(s[..n]), mean, sd)
  {
    if n == 0 { return 0, 0, 0; }
    var tmp := SortedCopy(s, n);
    var median := tmp[n / 2];
    MeanNearMedian(s[..n]);
    assert forall i :: 0 <= i < n ==> s[i] == s[..n][i];
    var sum;
    sum, kept := SumKept(s, n, median);
    if kept == 0 { return 0, median, 0; }
    mean := TruncDiv(sum, kept);
    var dev := Deviation(s, n, median, mean, kept);
    DeviationBound(s[..n], dev);
    sd := if dev > 0xFFFF then 0xFFFF else dev;
  }

  // ---- Collecting a batch ----

  /** The exchanges tried: as many as asked for, up to the cap, until the clock passes the
      deadline. clock(i) is read before the i-th exchange. */
  function Tried(want: nat, clock: nat -> int, deadline: int): (k: nat)
    ensures k <= want && (forall i: nat :: i < k ==> clock(i) < deadline)
    ensures k < want ==> clock(k) >= deadline
  {
    TriedFrom(0, want, clock, deadline)
  }

  function TriedFrom(i: nat, want: nat, clock: nat -> int, deadline: int): (k: nat)
    requires i <= want
    ensures i <= k <= want && (forall j: nat :: i <= j < k ==> clock(j) < deadline)
    ensures k < want ==> clock(k) >= deadline
    decreases want - i
  {
    if i == want || clock(i) >= deadline then i else TriedFrom(i + 1, want, clock, deadline)
  }

  function Listed(r: Option<int>): seq<int> {
    match r case Some(mm) => [mm] case None => []
  }

  /** The distances of the exchanges that worked among the first k. */
  function Worked(range: nat -> Option<int>, k: nat): (s: seq<int>)
    ensures |s| <= k
  {
    if k == 0 then [] else Worked(range, k - 1) + Listed(range(k - 1))
  }

  method Store(batch: array<int>, valid: nat, r: Option<int>) returns (next: nat)
    requires valid < batch.Length
    modifies batch
    ensures valid <= next <= valid + 1 && batch[..next] == old(batch[..valid]) + Listed(r)
  {
    next := valid;
    if r.Some? {
      batch[valid] := r.value;
      next := valid + 1;
    }
  }

  method Collect(asked: nat, start: int, clock: nat -> int, range: nat -> Option<int>, batch: array<int>) returns (valid: nat)
    requires batch.Length == MAX_EXCHANGES
    modifies batch
    ensures var want := if asked > MAX_EXCHANGES then MAX_EXCHANGES else asked;
      && valid <= want && batch[..valid] == Worked(range, Tried(want, clock, start + DEADLINE_MS))
  {
    var want := if asked > MAX_EXCHANGES then MAX_EXCHANGES else asked;
    var deadline := start + DEADLINE_MS;
    valid := 0;
    var i := 0;
    while i < want && clock(i) < deadline
      invariant i <= want && valid <= i && batch[..valid] == Worked(range, i)
      invariant Tried(want, clock, deadline) == TriedFrom(i, want, clock, deadline)
    {
      ghost var done := batch[..valid];
      var r := range(i);
      valid := Store(batch, valid, r);
      i := i + 1;
      assert batch[..valid] == done + Listed(r) == Worked(range, i);
    }
  }
}
