/** With enough damping a step is always found and always improves the fit, so the refinement
    loop makes progress. */
module DampedProgress {
  import opened Reals
  import opened SurveyFit
  import opened SurveyEdges
  import opened ParameterMap
  import opened Refinement
  import opened CostDescent
  import DS = DampedSystem
  import LS = LinearSolver
  import T3 = Trilateration

  // ---- Enough damping makes every step an improvement ----

  /** How strongly the edges resist being stretched. */
  function Stiffness(es: seq<Edge>, nodes: seq<NodeOut>): (r: real)
    ensures r >= 0.0
  {
    if es == [] then 0.0
    else Stiffness(es[..|es| - 1], nodes) + (if UsableEdge(es[|es| - 1], nodes) then Sq(1.0 / SdFloor(es[|es| - 1])) else 0.0)
  }

  lemma {:induction false} EntryBelowLength(x: LS.Row, k: nat, hi: nat)
    requires hi <= |x|
    ensures LS.Dot(x, x, 0, hi) >= 0.0 && (k < hi ==> LS.Times(x[k], x[k]) <= LS.Dot(x, x, 0, hi))
  {
    if hi > 0 {
      EntryBelowLength(x, k, hi - 1);
      DS.SquareOf(x[hi - 1]);
    }
  }

  lemma DifferenceSquare(a: real, b: real, q: real)
    requires a * a <= q && b * b <= q
    ensures (a - b) * (a - b) <= 4.0 * q
  {
    SquareIsNonNegative(a + b);
    assert (a - b) * (a - b) == 2.0 * (a * a) + 2.0 * (b * b) - (a + b) * (a + b);
  }

  lemma DeltaSquare(c: int, step: LS.Row, q: real)
    requires q == LS.Dot(step, step, 0, |step|)
    ensures Delta(c, step) * Delta(c, step) <= q
  {
    EntryBelowLength(step, if 0 <= c < |step| then c else 0, |step|);
  }

  lemma AxisDrift(ci: int, cj: int, step: LS.Row, q: real)
    requires q == LS.Dot(step, step, 0, |step|)
    ensures Sq(Delta(ci, step) - Delta(cj, step)) <= 4.0 * q
  {
    DeltaSquare(ci, step, q);
    DeltaSquare(cj, step, q);
    DifferenceSquare(Delta(ci, step), Delta(cj, step), q);
  }

  lemma LengthSquared(h: Vec)
    ensures T3.Dot(h, h) == Sq(h.x) + Sq(h.y) + Sq(h.z)
  {}

  lemma DriftBound(e: Edge, m: seq<Cols>, step: LS.Row, q: real)
    requires e.i < |m| && e.j < |m| && q == LS.Dot(step, step, 0, |step|)
    ensures T3.Dot(Drift(e, m, step), Drift(e, m, step)) <= 12.0 * q
  {
    AxisDrift(m[e.i].x, m[e.j].x, step, q);
    AxisDrift(m[e.i].y, m[e.j].y, step, q);
    AxisDrift(m[e.i].z, m[e.j].z, step, q);
    LengthSquared(Drift(e, m, step));
  }

  lemma TimesBelow(a: real, b: real, k: real)
    requires a <= b && k >= 0.0
    ensures LS.Times(a, k) <= LS.Times(b, k)
  {
    NonNegativeTimes(b - a, k);
  }

  lemma TimesSum(q: real, a: real, b: real)
    ensures LS.Times(q, a + b) == LS.Times(q, a) + LS.Times(q, b)
    ensures LS.Times(q, 0.0) == 0.0
  {}

  lemma {:induction false} StrainBound(es: seq<Edge>, nodes: seq<NodeOut>, m: seq<Cols>, step: LS.Row, q: real)
    requires |m| == |nodes| && q == LS.Dot(step, step, 0, |step|)
    ensures TotalStrain(es, nodes, m, step) <= LS.Times(12.0 * q, Stiffness(es, nodes))
    decreases |es|
  {
    if es == [] {
      TimesSum(12.0 * q, 0.0, 0.0);
    } else {
      var e, rest := es[|es| - 1], es[..|es| - 1];
      StrainBound(rest, nodes, m, step, q);
      if UsableEdge(e, nodes) {
        var k := Sq(1.0 / SdFloor(e));
        DriftBound(e, m, step, q);
        TimesBelow(T3.Dot(Drift(e, m, step), Drift(e, m, step)), 12.0 * q, k);
        TimesSum(12.0 * q, Stiffness(rest, nodes), k);
      }
    }
  }

  /** The least diagonal entry the damping multiplies. */
  ghost function LeastDamping(es: seq<Edge>, nodes: seq<NodeOut>, m: seq<Cols>, sqrt: real -> real, n: nat): (r: real)
    requires |m| == |nodes|
    ensures r > 0.0
    ensures forall p :: 0 <= p < n ==> r <= Damping(Normal(es, nodes, m, sqrt, p, p))
  {
    if n == 0 then 1.0
    else
      var rest, d := LeastDamping(es, nodes, m, sqrt, n - 1), Damping(Normal(es, nodes, m, sqrt, n - 1, n - 1));
      if d < rest then d else rest
  }

  lemma OnePull(d: real, least: real, lambda: real, x: real)
    requires lambda > 0.0 && least <= Damping(d)
    ensures LS.Times(DS.Pull(d, lambda, x), x) >= LS.Times(LS.Times(lambda, least), LS.Times(x, x))
  {
    DS.SquareOf(x);
    DS.Regroup(LS.Times(lambda, Damping(d)), x);
    NonNegativeTimes(lambda, Damping(d) - least);
    TimesBelow(LS.Times(lambda, least), LS.Times(lambda, Damping(d)), LS.Times(x, x));
  }

  lemma {:induction false} PullBound(d: seq<real>, least: real, lambda: real, c: LS.Row, x: LS.Row, hi: nat)
    requires lambda > 0.0 && hi <= |x| && |c| == |d| == |x| && forall p :: 0 <= p < |x| ==> least <= Damping(d[p])
    requires forall p :: 0 <= p < |x| ==> c[p] == DS.Pull(d[p], lambda, x[p])
    ensures LS.Dot(c, x, 0, hi) >= LS.Times(LS.Times(lambda, least), LS.Dot(x, x, 0, hi))
  {
    var k := LS.Times(lambda, least);
    if hi == 0 {
      TimesSum(k, 0.0, 0.0);
    } else {
      PullBound(d, least, lambda, c, x, hi - 1);
      OnePull(d[hi - 1], least, lambda, x[hi - 1]);
      TimesSum(k, LS.Dot(x, x, 0, hi - 1), LS.Times(x[hi - 1], x[hi - 1]));
    }
  }

  /** The more damping, the more of the step's squared length its product with the right-hand side is worth. */
  lemma StepGains(es: seq<Edge>, nodes: seq<NodeOut>, m: seq<Cols>, sqrt: real -> real, lambda: real, step: LS.Row)
    requires |m| == |nodes| && lambda > 0.0
    requires LS.Solves(DampedMatrix(es, nodes, m, sqrt, |step|, lambda), DescentVector(es, nodes, m, sqrt, |step|), step)
    ensures LS.Dot(DescentVector(es, nodes, m, sqrt, |step|), step, 0, |step|)
      >= LS.Times(LS.Times(lambda, LeastDamping(es, nodes, m, sqrt, |step|)), LS.Dot(step, step, 0, |step|))
  {
    var n := |step|;
    var a, b, c := DampedMatrix(es, nodes, m, sqrt, n, lambda), DescentVector(es, nodes, m, sqrt, n), DS.PullRow(es, nodes, m, sqrt, lambda, step);
    var d := seq(n, p requires 0 <= p < n => Normal(es, nodes, m, sqrt, p, p));
    assert DS.Image(a, step) == b;
    DS.DampedQuad(es, nodes, m, sqrt, lambda, step);
    DS.NormalIsSemidefinite(es, nodes, m, sqrt, step);
    PullBound(d, LeastDamping(es, nodes, m, sqrt, n), lambda, c, step, n);
  }

  /** A solution for a right-hand side that is not zero is not zero. */
  lemma StepIsNotZero(a: LS.Matrix, b: LS.Row, step: LS.Row, p: nat)
    requires LS.Solves(a, b, step) && p < |step| && b[p] != 0.0
    ensures LS.Dot(step, step, 0, |step|) > 0.0
  {
    var n := |step|;
    if forall k :: 0 <= k < n ==> step[k] == 0.0 {
      DS.DotWithZero(a[p], step, n);
    } else {
      var k :| 0 <= k < n && step[k] != 0.0;
      EntryBelowLength(step, k, n);
      DS.SquareOf(step[k]);
    }
  }

  ghost predicate EnoughDamping(es: seq<Edge>, nodes: seq<NodeOut>, m: seq<Cols>, sqrt: real -> real, n: nat, lambda: real)
    requires |m| == |nodes|
  {
    lambda > 0.0 && 6.0 * Stiffness(es, nodes) < LS.Times(lambda, LeastDamping(es, nodes, m, sqrt, n))
  }

  lemma GainBeatsStrain(k: real, ld: real, q: real)
    requires q > 0.0 && 6.0 * k < ld
    ensures LS.Times(12.0 * q, k) < 2.0 * LS.Times(ld, q)
  {
    T3.ProductSign(ld - 6.0 * k, q, (ld - 6.0 * k) * q);
  }

  /** With that much damping every step lowers the cost, so the loop accepts it. */
  lemma DampedStepImproves(es: seq<Edge>, nodes: seq<NodeOut>, m: seq<Cols>, sqrt: real -> real, lambda: real, step: LS.Row, p: nat)
    requires T3.IsRoot(sqrt) && |m| == |nodes| && Maps(m, |step|) && AllDirected(es, nodes, sqrt)
    requires EnoughDamping(es, nodes, m, sqrt, |step|, lambda)
    requires LS.Solves(DampedMatrix(es, nodes, m, sqrt, |step|, lambda), DescentVector(es, nodes, m, sqrt, |step|), step)
    requires p < |step| && DescentVector(es, nodes, m, sqrt, |step|)[p] != 0.0
    ensures Cost(es, Moved(nodes, m, step), sqrt) < Cost(es, nodes, sqrt)
  {
    var q := LS.Dot(step, step, 0, |step|);
    StepIsNotZero(DampedMatrix(es, nodes, m, sqrt, |step|, lambda), DescentVector(es, nodes, m, sqrt, |step|), step, p);
    StepGains(es, nodes, m, sqrt, lambda, step);
    StrainBound(es, nodes, m, step, q);
    GainBeatsStrain(Stiffness(es, nodes), LS.Times(lambda, LeastDamping(es, nodes, m, sqrt, |step|)), q);
    CostMajorised(es, nodes, m, step, sqrt);
  }

  // ---- Enough damping makes the system solvable ----

  /** A bound on what stands beside the diagonal in the first p columns. */
  ghost function WorstColumn(a: LS.Matrix, n: nat, p: nat): (r: real)
    requires LS.Square(a, n) && p <= n
    ensures r >= 0.0 && forall j :: 0 <= j < p ==> LS.Beside(a, j, 0, n) <= r
  {
    if p == 0 then 0.0
    else
      var rest, b := WorstColumn(a, n, p - 1), LS.Beside(a, p - 1, 0, n);
      if b > rest then b else rest
  }

  /** Damping leaves what is beside the diagonal alone. */
  lemma {:induction false} BesideStays(a: LS.Matrix, u: LS.Matrix, n: nat, j: nat, hi: nat)
    requires LS.Square(a, n) && LS.Square(u, n) && j < n && hi <= n
    requires forall i :: 0 <= i < n && i != j ==> u[i][j] == a[i][j]
    ensures LS.Beside(u, j, 0, hi) == LS.Beside(a, j, 0, hi)
  {
    if hi > 0 { BesideStays(a, u, n, j, hi - 1); }
  }

  lemma {:induction false} DiagonalIsNotNegative(es: seq<Edge>, nodes: seq<NodeOut>, m: seq<Cols>, sqrt: real -> real, p: nat)
    requires |m| == |nodes|
    ensures Normal(es, nodes, m, sqrt, p, p) >= 0.0
    decreases |es|
  {
    if es != [] {
      DiagonalIsNotNegative(es[..|es| - 1], nodes, m, sqrt, p);
      DS.SquareOf(GradAt(Entries(es[|es| - 1], nodes, m, sqrt), p));
    }
  }

  lemma RaisedDiagonal(d: real, least: real, lambda: real, beside: real)
    requires d >= 0.0 && lambda > 0.0 && least <= Damping(d) && beside + LS.PIVOT_MIN <= LS.Times(lambda, least)
    ensures beside + LS.PIVOT_MIN <= Abs(d + LS.Times(lambda, Damping(d)))
  {
    NonNegativeTimes(lambda, Damping(d) - least);
    assert LS.Times(lambda, Damping(d)) >= LS.Times(lambda, least);
  }

  /** A matrix damped this much is dominant by columns, so the solver does not find it singular. */
  lemma DampedIsDominant(es: seq<Edge>, nodes: seq<NodeOut>, m: seq<Cols>, sqrt: real -> real, n: nat, lambda: real)
    requires |m| == |nodes| && lambda > 0.0
    requires WorstColumn(DS.NormalMatrix(es, nodes, m, sqrt, n), n, n) + LS.PIVOT_MIN <= LS.Times(lambda, LeastDamping(es, nodes, m, sqrt, n))
    ensures LS.Dominant(DampedMatrix(es, nodes, m, sqrt, n, lambda), n, 0)
  {
    var a, u := DS.NormalMatrix(es, nodes, m, sqrt, n), DampedMatrix(es, nodes, m, sqrt, n, lambda);
    forall j | 0 <= j < n ensures LS.Beside(u, j, 0, n) + LS.PIVOT_MIN <= Abs(u[j][j]) {
      BesideStays(a, u, n, j, n);
      DiagonalIsNotNegative(es, nodes, m, sqrt, j);
      RaisedDiagonal(Normal(es, nodes, m, sqrt, j, j), LeastDamping(es, nodes, m, sqrt, n), lambda, LS.Beside(a, j, 0, n));
    }
  }

  // ---- So the loop makes progress ----

  function ThresholdFor(k: real, least: real): real
    requires least > 0.0
  {
    (k + 1.0) / least
  }

  lemma AboveThreshold(k: real, least: real, lambda: real)
    requires k >= 0.0 && least > 0.0 && lambda >= ThresholdFor(k, least)
    ensures lambda > 0.0 && k < LS.Times(lambda, least)
  {
    var bound := ThresholdFor(k, least);
    assert LS.Times(bound, least) == k + 1.0;
    NonNegative(bound, least);
    TimesBelow(bound, lambda, least);
  }

  /** A damping that is enough for both, in terms of the weights and of the undamped matrix. */
  ghost function Threshold(es: seq<Edge>, nodes: seq<NodeOut>, m: seq<Cols>, sqrt: real -> real, n: nat): real
    requires |m| == |nodes|
  {
    ThresholdFor(6.0 * Stiffness(es, nodes) + WorstColumn(DS.NormalMatrix(es, nodes, m, sqrt, n), n, n) + LS.PIVOT_MIN,
                 LeastDamping(es, nodes, m, sqrt, n))
  }

  /** Wherever the right-hand side is not zero, from the threshold on the solver finds a step
      and the step lowers the cost. */
  lemma RaisingDampingSucceeds(es: seq<Edge>, nodes: seq<NodeOut>, m: seq<Cols>, sqrt: real -> real, n: nat, p: nat, lambda: real)
    requires T3.IsRoot(sqrt) && |m| == |nodes| && Maps(m, n) && AllDirected(es, nodes, sqrt)
    requires p < n && DescentVector(es, nodes, m, sqrt, n)[p] != 0.0 && lambda >= Threshold(es, nodes, m, sqrt, n)
    ensures Improves(es, nodes, m, sqrt, n, lambda)
  {
    var least, worst := LeastDamping(es, nodes, m, sqrt, n), WorstColumn(DS.NormalMatrix(es, nodes, m, sqrt, n), n, n);
    AboveThreshold(6.0 * Stiffness(es, nodes) + worst + LS.PIVOT_MIN, least, lambda);
    DampedIsDominant(es, nodes, m, sqrt, n, lambda);
    forall step | StepOf(es, nodes, m, sqrt, n, lambda, step) ensures Cost(es, Moved(nodes, m, step), sqrt) < Cost(es, nodes, sqrt) {
      DampedStepImproves(es, nodes, m, sqrt, lambda, step, p);
    }
  }

  /** So refining improves every layout whose right-hand side is not zero and whose threshold is
      within the damping's limit. */
  lemma RefinementImproves(es: seq<Edge>, nodes: seq<NodeOut>, g: Gauge, sqrt: real -> real, p: nat)
    requires T3.IsRoot(sqrt) && AllDirected(es, nodes, sqrt)
    requires var (m, n) := Map(nodes, g, g.dim);
      |m| == |nodes| && p < n && DescentVector(es, nodes, m, sqrt, n)[p] != 0.0 && Threshold(es, nodes, m, sqrt, n) <= LAMBDA_MAX
    ensures CanImprove(es, nodes, g, sqrt)
  {
    var (m, n) := Map(nodes, g, g.dim);
    BuiltMapMaps(nodes, g, g.dim);
    LastRaise();
    RaisingDampingSucceeds(es, nodes, m, sqrt, n, p, Raised(LAST_RAISE));
    assert Promising(es, nodes, m, sqrt, n)(LAST_RAISE);
  }
}
