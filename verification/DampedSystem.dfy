/** Why a refinement step is well defined and points downhill: the damped normal matrix is
    positive definite for every positive damping. */
module DampedSystem {
  import opened SurveyFit
  import opened SurveyEdges
  import opened ParameterMap
  import opened Refinement
  import LS = LinearSolver

  /** The products of a matrix's rows with x. */
  ghost function Image(a: LS.Matrix, x: LS.Row): (r: LS.Row)
    requires LS.Square(a, |x|)
    ensures |r| == |x|
  {
    seq(|x|, p requires 0 <= p < |x| => LS.Dot(a[p], x, 0, |x|))
  }

  ghost function NormalMatrix(es: seq<Edge>, nodes: seq<NodeOut>, m: seq<Cols>, sqrt: real -> real, n: nat): (r: LS.Matrix)
    requires |m| == |nodes|
    ensures LS.Square(r, n)
  {
    seq(n, p requires 0 <= p < n => seq(n, q requires 0 <= q < n => Normal(es, nodes, m, sqrt, p, q)))
  }

  ghost function GradRow(en: seq<Entry>, n: nat): (r: LS.Row)
    ensures |r| == n
  {
    seq(n, p requires 0 <= p < n => GradAt(en, p))
  }

  lemma PlusTimes(a: real, f: real, b: real)
    ensures LS.Minus(a, -f, b) == a + LS.Times(f, b)
  {}

  lemma SquareOf(s: real)
    ensures LS.Times(s, s) >= 0.0 && (s != 0.0 ==> LS.Times(s, s) > 0.0)
  {
    if s > 0.0 {
      PositiveProduct(s, s, LS.Times(s, s));
    } else if s < 0.0 {
      NegativeProduct(s, s, LS.Times(s, s));
    } else {
      LS.ZeroTimes(s);
    }
  }

  lemma NegativeProduct(a: real, b: real, c: real)
    requires a < 0.0 && b < 0.0 && c == a * b
    ensures c > 0.0
  {}

  /** One edge's share of row p of the normal matrix times x. */
  lemma QuadRow(a: LS.Row, b: LS.Row, g: LS.Row, x: LS.Row, p: nat)
    requires |a| == |b| == |g| == |x| && p < |x|
    requires forall q :: 0 <= q < |x| ==> a[q] == b[q] + LS.Times(g[p], g[q])
    ensures LS.Dot(a, x, 0, |x|) == LS.Minus(LS.Dot(b, x, 0, |x|), -LS.Dot(g, x, 0, |x|), g[p])
  {
    var n := |x|;
    var s := LS.Dot(g, x, 0, n);
    forall q | 0 <= q < n ensures a[q] == LS.Minus(b[q], -g[p], g[q]) { PlusTimes(b[q], g[p], g[q]); }
    LS.DotAxpy(b, g, a, -g[p], x, n);
    PlusTimes(LS.Dot(b, x, 0, n), g[p], s);
    PlusTimes(LS.Dot(b, x, 0, n), s, g[p]);
    Commute(g[p], s);
  }

  /** A rank-one change of a matrix changes its quadratic form by a square. */
  lemma RankOne(a: LS.Matrix, b: LS.Matrix, g: LS.Row, x: LS.Row)
    requires |g| == |x| && LS.Square(a, |x|) && LS.Square(b, |x|)
    requires forall p, q :: 0 <= p < |x| && 0 <= q < |x| ==> a[p][q] == b[p][q] + LS.Times(g[p], g[q])
    ensures var s := LS.Dot(g, x, 0, |x|);
      LS.Dot(Image(a, x), x, 0, |x|) == LS.Dot(Image(b, x), x, 0, |x|) + LS.Times(s, s)
  {
    var n := |x|;
    var s := LS.Dot(g, x, 0, n);
    var ia, ib := Image(a, x), Image(b, x);
    forall p | 0 <= p < n ensures ia[p] == LS.Minus(ib[p], -s, g[p]) { QuadRow(a[p], b[p], g, x, p); }
    RankOneForm(ia, ib, g, x, s);
  }

  lemma RankOneForm(ia: LS.Row, ib: LS.Row, g: LS.Row, x: LS.Row, s: real)
    requires |ia| == |ib| == |g| == |x| && s == LS.Dot(g, x, 0, |x|)
    requires forall p :: 0 <= p < |x| ==> ia[p] == LS.Minus(ib[p], -s, g[p])
    ensures LS.Dot(ia, x, 0, |x|) == LS.Dot(ib, x, 0, |x|) + LS.Times(s, s)
  {
    LS.DotAxpy(ib, g, ia, -s, x, |x|);
    PlusTimes(LS.Dot(ib, x, 0, |x|), s, s);
  }

  /** One edge adds the square of its gradient's product with x. */
  lemma QuadStep(es: seq<Edge>, nodes: seq<NodeOut>, m: seq<Cols>, sqrt: real -> real, x: LS.Row)
    requires |m| == |nodes| && es != []
    ensures var n := |x|;
      var g := GradRow(Entries(es[|es| - 1], nodes, m, sqrt), n);
      var s := LS.Dot(g, x, 0, n);
      LS.Dot(Image(NormalMatrix(es, nodes, m, sqrt, n), x), x, 0, n)
        == LS.Dot(Image(NormalMatrix(es[..|es| - 1], nodes, m, sqrt, n), x), x, 0, n) + LS.Times(s, s)
  {
    var n := |x|;
    var g := GradRow(Entries(es[|es| - 1], nodes, m, sqrt), n);
    RankOne(NormalMatrix(es, nodes, m, sqrt, n), NormalMatrix(es[..|es| - 1], nodes, m, sqrt, n), g, x);
  }

  lemma Commute(a: real, b: real)
    ensures LS.Times(a, b) == LS.Times(b, a)
  {}

  /** The undamped normal matrix is positive semidefinite. */
  lemma {:induction false} NormalIsSemidefinite(es: seq<Edge>, nodes: seq<NodeOut>, m: seq<Cols>, sqrt: real -> real, x: LS.Row)
    requires |m| == |nodes|
    ensures LS.Dot(Image(NormalMatrix(es, nodes, m, sqrt, |x|), x), x, 0, |x|) >= 0.0
  {
    var n := |x|;
    if es == [] {
      var a := NormalMatrix(es, nodes, m, sqrt, n);
      forall p | 0 <= p < n ensures Image(a, x)[p] == 0.0 { LS.DotZero(a[p], x, 0, n); }
      LS.DotZero(Image(a, x), x, 0, n);
    } else {
      NormalIsSemidefinite(es[..|es| - 1], nodes, m, sqrt, x);
      QuadStep(es, nodes, m, sqrt, x);
      SquareOf(LS.Dot(GradRow(Entries(es[|es| - 1], nodes, m, sqrt), n), x, 0, n));
    }
  }

  lemma {:induction false} OneEntry(u: LS.Row, x: LS.Row, p: nat, hi: nat)
    requires hi <= |u| && hi <= |x| && forall k :: 0 <= k < hi && k != p ==> u[k] == 0.0
    ensures LS.Dot(u, x, 0, hi) == if p < hi then LS.Times(u[p], x[p]) else 0.0
  {
    if hi > 0 {
      OneEntry(u, x, p, hi - 1);
      LS.ZeroTimes(x[hi - 1]);
    }
  }

  /** What the damping of one diagonal entry adds to the product with x. */
  function Pull(d: real, lambda: real, x: real): real { LS.Times(LS.Times(lambda, Damping(d)), x) }

  lemma DampedImage(es: seq<Edge>, nodes: seq<NodeOut>, m: seq<Cols>, sqrt: real -> real, lambda: real, x: LS.Row, p: nat)
    requires |m| == |nodes| && p < |x|
    ensures var n := |x|;
      Image(DampedMatrix(es, nodes, m, sqrt, n, lambda), x)[p]
        == Image(NormalMatrix(es, nodes, m, sqrt, n), x)[p] + Pull(Normal(es, nodes, m, sqrt, p, p), lambda, x[p])
  {
    var n := |x|;
    var a, b := DampedMatrix(es, nodes, m, sqrt, n, lambda)[p], NormalMatrix(es, nodes, m, sqrt, n)[p];
    var d := seq(n, q requires 0 <= q < n => if q == p then LS.Times(lambda, Damping(b[p])) else 0.0);
    forall q | 0 <= q < n ensures a[q] == LS.Minus(b[q], -1.0, d[q]) { UnitMinus(b[q], d[q]); }
    LS.DotAxpy(b, d, a, -1.0, x, n);
    UnitMinus(LS.Dot(b, x, 0, n), LS.Dot(d, x, 0, n));
    OneEntry(d, x, p, n);
  }

  lemma UnitMinus(a: real, b: real)
    ensures LS.Minus(a, -1.0, b) == a + b
  {}

  ghost function PullRow(es: seq<Edge>, nodes: seq<NodeOut>, m: seq<Cols>, sqrt: real -> real, lambda: real, x: LS.Row): (r: LS.Row)
    requires |m| == |nodes|
    ensures |r| == |x|
  {
    seq(|x|, p requires 0 <= p < |x| => Pull(Normal(es, nodes, m, sqrt, p, p), lambda, x[p]))
  }

  lemma SumOfRows(a: LS.Row, b: LS.Row, c: LS.Row, x: LS.Row)
    requires |a| == |b| == |c| == |x| && forall p :: 0 <= p < |x| ==> a[p] == b[p] + c[p]
    ensures LS.Dot(a, x, 0, |x|) == LS.Dot(b, x, 0, |x|) + LS.Dot(c, x, 0, |x|)
  {
    forall p | 0 <= p < |x| ensures a[p] == LS.Minus(b[p], -1.0, c[p]) { UnitMinus(b[p], c[p]); }
    LS.DotAxpy(b, c, a, -1.0, x, |x|);
    UnitMinus(LS.Dot(b, x, 0, |x|), LS.Dot(c, x, 0, |x|));
  }

  lemma DampedQuad(es: seq<Edge>, nodes: seq<NodeOut>, m: seq<Cols>, sqrt: real -> real, lambda: real, x: LS.Row)
    requires |m| == |nodes|
    ensures LS.Dot(Image(DampedMatrix(es, nodes, m, sqrt, |x|, lambda), x), x, 0, |x|)
      == LS.Dot(Image(NormalMatrix(es, nodes, m, sqrt, |x|), x), x, 0, |x|)
         + LS.Dot(PullRow(es, nodes, m, sqrt, lambda, x), x, 0, |x|)
  {
    var a, b := Image(DampedMatrix(es, nodes, m, sqrt, |x|, lambda), x), Image(NormalMatrix(es, nodes, m, sqrt, |x|), x);
    var c := PullRow(es, nodes, m, sqrt, lambda, x);
    forall p | 0 <= p < |x| ensures a[p] == b[p] + c[p] { DampedImage(es, nodes, m, sqrt, lambda, x, p); }
    SumOfRows(a, b, c, x);
  }

  lemma PullIsPositive(d: real, lambda: real, x: real)
    requires lambda > 0.0
    ensures LS.Times(Pull(d, lambda, x), x) >= 0.0 && (x != 0.0 ==> LS.Times(Pull(d, lambda, x), x) > 0.0)
  {
    var k := LS.Times(lambda, Damping(d));
    PositiveProduct(lambda, Damping(d), k);
    SquareOf(x);
    Regroup(k, x);
    if x != 0.0 {
      PositiveProduct(k, LS.Times(x, x), LS.Times(k, LS.Times(x, x)));
    } else {
      Zeroed(k);
    }
  }

  lemma Zeroed(k: real)
    ensures LS.Times(k, LS.Times(0.0, 0.0)) == 0.0
  {}

  lemma Regroup(k: real, x: real)
    ensures LS.Times(LS.Times(k, x), x) == LS.Times(k, LS.Times(x, x))
  {}

  lemma PositiveProduct(a: real, b: real, c: real)
    requires a > 0.0 && b > 0.0 && c == a * b
    ensures c > 0.0
  {}

  lemma {:induction false} PullRowIsPositive(d: seq<real>, lambda: real, c: LS.Row, x: LS.Row, hi: nat)
    requires lambda > 0.0 && hi <= |x| && |c| == |d| == |x|
    requires forall p :: 0 <= p < |x| ==> c[p] == Pull(d[p], lambda, x[p])
    ensures LS.Dot(c, x, 0, hi) >= 0.0
    ensures LS.Dot(c, x, 0, hi) == 0.0 ==> forall p :: 0 <= p < hi ==> x[p] == 0.0
  {
    if hi > 0 {
      PullRowIsPositive(d, lambda, c, x, hi - 1);
      PullIsPositive(d[hi - 1], lambda, x[hi - 1]);
    }
  }

  /** x' A x > 0 for every x other than 0. */
  lemma DampedIsDefinite(es: seq<Edge>, nodes: seq<NodeOut>, m: seq<Cols>, sqrt: real -> real, lambda: real, x: LS.Row)
    requires |m| == |nodes| && lambda > 0.0
    ensures var q := LS.Dot(Image(DampedMatrix(es, nodes, m, sqrt, |x|, lambda), x), x, 0, |x|);
      q >= 0.0 && (q == 0.0 ==> forall p :: 0 <= p < |x| ==> x[p] == 0.0)
  {
    NormalIsSemidefinite(es, nodes, m, sqrt, x);
    DampedQuad(es, nodes, m, sqrt, lambda, x);
    var d := seq(|x|, p requires 0 <= p < |x| => Normal(es, nodes, m, sqrt, p, p));
    PullRowIsPositive(d, lambda, PullRow(es, nodes, m, sqrt, lambda, x), x, |x|);
  }

  /** A step that solves the damped system makes an acute angle with the descent direction of
      the cost, unless there is nowhere to descend; and the system has no second solution. */
  lemma StepPointsDownhill(es: seq<Edge>, nodes: seq<NodeOut>, m: seq<Cols>, sqrt: real -> real, lambda: real, step: LS.Row)
    requires |m| == |nodes| && lambda > 0.0
    requires LS.Solves(DampedMatrix(es, nodes, m, sqrt, |step|, lambda), DescentVector(es, nodes, m, sqrt, |step|), step)
    ensures var b := DescentVector(es, nodes, m, sqrt, |step|);
      && LS.Dot(b, step, 0, |step|) >= 0.0
      && (LS.Dot(b, step, 0, |step|) == 0.0 ==> forall p :: 0 <= p < |step| ==> b[p] == 0.0)
  {
    var n, a, b := |step|, DampedMatrix(es, nodes, m, sqrt, |step|, lambda), DescentVector(es, nodes, m, sqrt, |step|);
    assert Image(a, step) == b;
    DampedIsDefinite(es, nodes, m, sqrt, lambda, step);
    if LS.Dot(b, step, 0, n) == 0.0 {
      forall p | 0 <= p < n ensures b[p] == 0.0 { DotWithZero(a[p], step, n); }
    }
  }

  lemma {:induction false} DotWithZero(u: LS.Row, x: LS.Row, hi: nat)
    requires hi <= |u| && hi <= |x| && forall k :: 0 <= k < hi ==> x[k] == 0.0
    ensures LS.Dot(u, x, 0, hi) == 0.0
  {
    if hi > 0 {
      DotWithZero(u, x, hi - 1);
      LS.ZeroTimes(u[hi - 1]);
      Commute(u[hi - 1], 0.0);
    }
  }

  /** Only the zero vector is sent to zero: no positive damping leaves the system singular. */
  lemma DampedIsRegular(es: seq<Edge>, nodes: seq<NodeOut>, m: seq<Cols>, sqrt: real -> real, lambda: real, x: LS.Row)
    requires |m| == |nodes| && lambda > 0.0
    requires LS.Solves(DampedMatrix(es, nodes, m, sqrt, |x|, lambda), seq(|x|, _ => 0.0), x)
    ensures forall p :: 0 <= p < |x| ==> x[p] == 0.0
  {
    var a := DampedMatrix(es, nodes, m, sqrt, |x|, lambda);
    LS.DotZero(Image(a, x), x, 0, |x|);
    DampedIsDefinite(es, nodes, m, sqrt, lambda, x);
  }
}
