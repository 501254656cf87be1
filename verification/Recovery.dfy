/** When trilateration answers, and how a further range tells its two answers apart. */
module Recovery {
  import opened Trilateration
  import opened SurveyFit
  import opened Reals
  import T2 = PlanarTrilateration

  lemma RootAtLeast(x: real, sqrt: real -> real, b: real)
    requires IsRoot(sqrt) && x >= 0.0 && b >= 0.0
    ensures sqrt(x) >= b <==> x >= Sq(b)
  {
    SquaresOrdered(sqrt(x), b);
  }

  lemma SquaresOrdered(a: real, b: real)
    requires a >= 0.0 && b >= 0.0
    ensures a >= b <==> Sq(a) >= Sq(b)
  {
    assert Sq(a) - Sq(b) == (a - b) * (a + b);
    if a > b { ProductSign(a - b, a + b, Sq(a) - Sq(b)); }
    if a < b { ProductSign(b - a, a + b, Sq(b) - Sq(a)); }
  }

  /** The root of a square. */
  lemma RootIs(x: real, sqrt: real -> real, r: real)
    requires IsRoot(sqrt) && r >= 0.0 && x >= 0.0
    ensures sqrt(x) == r <==> x == Sq(r)
  {
    SquaresOrdered(sqrt(x), r);
    SquaresOrdered(r, sqrt(x));
  }

  // ---- Three spheres ----

  /** The first two points are not too close, and the third is not too close to their line. */
  predicate Spanning(p0: Vec, p1: Vec, p2: Vec) {
    var u, v := Sub(p1, p0), Sub(p2, p0);
    Dot(u, u) >= Sq(EPS) && Dot(Cross(u, v), Cross(u, v)) >= Sq(EPS) * Dot(u, u)
  }

  lemma RestLength(v: Vec, e: Vec, i: real, t: Vec)
    requires Dot(e, e) == 1.0 && i == Dot(e, v) && t == Sub(v, Scale(i, e))
    ensures Dot(t, t) == Dot(v, v) - i * i
  {
    TakeOffComponent(v, e, i);
    DotSub(v, Scale(i, e), t);
    DotScale(i, e, t);
    DotSym(e, t);
    DotSym(v, t);
    DotSub(v, Scale(i, e), v);
    DotScale(i, e, v);
  }

  lemma ScaledOrder(a: real, b: real, k: real)
    requires k > 0.0
    ensures k * a >= k * b <==> a >= b
  {
    if a > b { ProductSign(k, a - b, k * (a - b)); }
    if a < b { ProductSign(k, b - a, k * (b - a)); }
  }

  /** An area over its base is a height. */
  lemma AreaOrder(uu: real, vv: real, uv: real, cc: real, tt: real, d: real, i: real, k: real)
    requires cc == uu * vv - uv * uv && uu == d * d && uv == d * i && tt == vv - i * i && d > 0.0
    ensures tt >= k <==> cc >= k * uu
  {
    assert uv * uv == uu * (i * i);
    assert cc == uu * tt;
    ProductSign(d, d, uu);
    ScaledOrder(tt, k, uu);
  }

  lemma LengthIs(u: Vec, d: real, sqrt: real -> real)
    requires IsRoot(sqrt) && d == Norm(u, sqrt)
    ensures Dot(u, u) == d * d && d >= 0.0
  {
    SquaresArePositive(u);
  }

  lemma AlongIs(u: Vec, v: Vec, d: real, e: Vec, i: real)
    requires Scale(d, e) == u && i == Dot(e, v)
    ensures Dot(u, v) == d * i
  {
    DotScale(d, e, v);
  }

  /** What is left of v beside the axis along u. */
  function Rest(u: Vec, v: Vec, d: real): Vec
    requires d != 0.0
  {
    var e := Scale(1.0 / d, u);
    Sub(v, Scale(Dot(e, v), e))
  }

  lemma RestFacts(u: Vec, v: Vec, d: real, sqrt: real -> real) returns (i: real)
    requires IsRoot(sqrt) && d == Norm(u, sqrt) && d >= EPS
    ensures Dot(u, v) == d * i && Dot(Rest(u, v, d), Rest(u, v, d)) == Dot(v, v) - i * i
  {
    var e := Scale(1.0 / d, u);
    i := Dot(e, v);
    Axis(u, sqrt);
    AlongIs(u, v, d, e, i);
    RestLength(v, e, i, Rest(u, v, d));
  }

  lemma SecondAxisIff(u: Vec, v: Vec, d: real, sqrt: real -> real)
    requires IsRoot(sqrt) && d == Norm(u, sqrt) && d >= EPS
    ensures Norm(Rest(u, v, d), sqrt) >= EPS <==> Dot(Cross(u, v), Cross(u, v)) >= Sq(EPS) * Dot(u, u)
  {
    var i := RestFacts(u, v, d, sqrt);
    LengthIs(u, d, sqrt);
    Lagrange(u, v);
    AreaOrder(Dot(u, u), Dot(v, v), Dot(u, v), Dot(Cross(u, v), Cross(u, v)), Dot(Rest(u, v, d), Rest(u, v, d)), d, i, Sq(EPS));
    NormAtLeast(Rest(u, v, d), sqrt);
  }

  lemma NormAtLeast(u: Vec, sqrt: real -> real)
    requires IsRoot(sqrt)
    ensures Norm(u, sqrt) >= EPS <==> Dot(u, u) >= Sq(EPS)
  {
    SquaresArePositive(u);
    RootAtLeast(Dot(u, u), sqrt, EPS);
  }

  lemma FrameFound(p0: Vec, p1: Vec, p2: Vec, sqrt: real -> real)
    ensures var d := Norm(Sub(p1, p0), sqrt);
      PlaneFrame(p0, p1, p2, sqrt).Some? <==> d >= EPS && Norm(Rest(Sub(p1, p0), Sub(p2, p0), d), sqrt) >= EPS
  {}

  /** A frame is found exactly for centres that span a plane. */
  lemma FrameIffSpanning(p0: Vec, p1: Vec, p2: Vec, sqrt: real -> real)
    requires IsRoot(sqrt)
    ensures PlaneFrame(p0, p1, p2, sqrt).Some? <==> Spanning(p0, p1, p2)
  {
    var u, v := Sub(p1, p0), Sub(p2, p0);
    FrameFound(p0, p1, p2, sqrt);
    NormAtLeast(u, sqrt);
    if Norm(u, sqrt) >= EPS { SecondAxisIff(u, v, Norm(u, sqrt), sqrt); }
  }

  /** Some point exceeds the three squared radii alike, by at most a hundredth of the first. */
  ghost predicate Reached3(p0: Vec, p1: Vec, p2: Vec, r0: real, r1: real, r2: real) {
    exists q, excess :: 0.0 <= excess <= Sq(0.1 * r0) && Near(q, p0, p1, p2, r0, r1, r2, excess)
  }

  /** Three spheres are intersected exactly when their centres span a plane and they meet or
      nearly do. */
  lemma Trilaterate3Succeeds(p0: Vec, p1: Vec, p2: Vec, r0: real, r1: real, r2: real, sqrt: real -> real)
    requires IsRoot(sqrt)
    ensures Trilaterate3(p0, p1, p2, r0, r1, r2, sqrt).Some? <==> Spanning(p0, p1, p2) && Reached3(p0, p1, p2, r0, r1, r2)
  {
    FrameIffSpanning(p0, p1, p2, sqrt);
    SqPositive(0.1 * r0);
    if Trilaterate3(p0, p1, p2, r0, r1, r2, sqrt).Some? {
      var excess := Trilaterate3Sound(p0, p1, p2, r0, r1, r2, sqrt);
      assert Near(Trilaterate3(p0, p1, p2, r0, r1, r2, sqrt).value.0, p0, p1, p2, r0, r1, r2, excess);
    } else if Spanning(p0, p1, p2) && Reached3(p0, p1, p2, r0, r1, r2) {
      var q, excess :| 0.0 <= excess <= Sq(0.1 * r0) && Near(q, p0, p1, p2, r0, r1, r2, excess);
      NearIsReached(p0, p1, p2, r0, r1, r2, sqrt, q, excess);
    }
  }

  lemma NearIsReached(p0: Vec, p1: Vec, p2: Vec, r0: real, r1: real, r2: real, sqrt: real -> real, q: Vec, excess: real)
    requires IsRoot(sqrt) && PlaneFrame(p0, p1, p2, sqrt).Some?
    requires 0.0 <= excess <= Sq(0.1 * r0) && Near(q, p0, p1, p2, r0, r1, r2, excess)
    ensures Trilaterate3(p0, p1, p2, r0, r1, r2, sqrt).Some?
  {
    var f := PlaneFrame(p0, p1, p2, sqrt).value;
    FrameIsOrthonormal(p0, p1, p2, sqrt);
    var x, y, w := FrameSpans(p0, f, q);
    InFrameNear(p0, p1, p2, r0, r1, r2, sqrt, x, y, w, excess);
    SqPositive(w);
  }

  // ---- A fourth sphere ----

  /** Six times the volume of the tetrahedron: zero when p3 is in the plane of the others. */
  function Volume(p0: Vec, p1: Vec, p2: Vec, p3: Vec): real { Dot(Sub(p3, p0), Cross(Sub(p1, p0), Sub(p2, p0))) }

  lemma VolumeInFrame(p0: Vec, p1: Vec, p2: Vec, f: Frame, x: real, y: real, z: real)
    requires Orthonormal(f) && p1 == PointAt(p0, f, f.d, 0.0, 0.0) && p2 == PointAt(p0, f, f.i, f.j, 0.0)
    ensures Volume(p0, p1, p2, PointAt(p0, f, x, y, z)) == Times(f.d * f.j, z)
  {
    NormalInFrame(p0, p1, p2, f);
    HeightOver(p0, f, x, y, z, f.d * f.j);
  }

  lemma NormalInFrame(p0: Vec, p1: Vec, p2: Vec, f: Frame)
    requires Orthonormal(f) && p1 == PointAt(p0, f, f.d, 0.0, 0.0) && p2 == PointAt(p0, f, f.i, f.j, 0.0)
    ensures Cross(Sub(p1, p0), Sub(p2, p0)) == Scale(f.d * f.j, f.ez)
  {
    FromOrigin(p0, f, f.d, 0.0, 0.0);
    FromOrigin(p0, f, f.i, f.j, 0.0);
    CrossScale(f.d, f.ex, Sub(p2, p0));
    CrossOwn(f.ex, f.ey, f.i, f.j);
    ScaleScale(f.d, f.j, f.ez);
    AxisOnly(f, f.d);
    NoHeight(f, f.i, f.j);
  }

  lemma AxisOnly(f: Frame, d: real)
    ensures Add(Add(Scale(d, f.ex), Scale(0.0, f.ey)), Scale(0.0, f.ez)) == Scale(d, f.ex)
  {}

  lemma NoHeight(f: Frame, i: real, j: real)
    ensures Add(Add(Scale(i, f.ex), Scale(j, f.ey)), Scale(0.0, f.ez)) == Add(Scale(i, f.ex), Scale(j, f.ey))
  {}

  lemma HeightsDiffer(x: real, y: real, z: real, a: real, b: real, c: real)
    requires c != 0.0 && Sq(x - a) + Sq(y - b) + Sq(z - c) == Sq(x - a) + Sq(y - b) + Sq(-z - c)
    ensures z == 0.0
  {
    assert Sq(z - c) - Sq(-z - c) == -4.0 * (z * c);
  }

  /** The mirror image of a point is at another distance from a fourth point outside the plane. */
  lemma MirrorIsElsewhere(p0: Vec, p1: Vec, p2: Vec, p3: Vec, f: Frame, x: real, y: real, z: real)
    requires Orthonormal(f) && p1 == PointAt(p0, f, f.d, 0.0, 0.0) && p2 == PointAt(p0, f, f.i, f.j, 0.0)
    requires Volume(p0, p1, p2, p3) != 0.0
    requires Dist2(PointAt(p0, f, x, y, z), p3) == Dist2(PointAt(p0, f, x, y, -z), p3)
    ensures z == 0.0
  {
    var a, b, c := FrameSpans(p0, f, p3);
    VolumeInFrame(p0, p1, p2, f, a, b, c);
    DistInFrame(p0, f, x, y, z, a, b, c);
    DistInFrame(p0, f, x, y, -z, a, b, c);
    HeightsDiffer(x, y, z, a, b, c);
  }

  /** The two intersections are equally far from the fourth centre only if they are one. */
  lemma FarApart(p0: Vec, p1: Vec, p2: Vec, p3: Vec, r0: real, r1: real, r2: real, sqrt: real -> real)
    requires IsRoot(sqrt) && Trilaterate3(p0, p1, p2, r0, r1, r2, sqrt).Some? && Volume(p0, p1, p2, p3) != 0.0
    ensures var (a, b) := Trilaterate3(p0, p1, p2, r0, r1, r2, sqrt).value;
      Dist2(a, p3) == Dist2(b, p3) ==> a == b
  {
    var (a, b) := Trilaterate3(p0, p1, p2, r0, r1, r2, sqrt).value;
    if Dist2(a, p3) == Dist2(b, p3) {
      var f := PlaneFrame(p0, p1, p2, sqrt).value;
      FrameIsOrthonormal(p0, p1, p2, sqrt);
      CentresInFrame(p0, p1, p2, sqrt);
      var x := RadicalX(f.d, r0, r1);
      var y := RadicalY(f.i, f.j, r0, r2, x);
      MirrorIsElsewhere(p0, p1, p2, p3, f, x, y, Height(Sq(r0) - Sq(x) - Sq(y), r0, sqrt).value);
    }
  }

  /** na and nb are the distances of the two answers from a further centre. */
  lemma Chosen<P>(a: P, b: P, q: P, na: real, nb: real, r: real)
    requires (q == a && na == r) || (q == b && nb == r)
    requires na == nb ==> a == b
    ensures q == if Abs(na - r) <= Abs(nb - r) then a else b
  {}

  /** Of the two intersections of three spheres, a point that is also on a fourth is the one
      that disagrees less with it. */
  lemma FourthTells(p0: Vec, p1: Vec, p2: Vec, p3: Vec, r0: real, r1: real, r2: real, r3: real, sqrt: real -> real, q: Vec)
    requires IsRoot(sqrt) && Spanning(p0, p1, p2) && Volume(p0, p1, p2, p3) != 0.0
    requires OnSpheres(q, p0, p1, p2, r0, r1, r2) && r3 >= 0.0 && Dist2(q, p3) == Sq(r3)
    ensures Trilaterate3(p0, p1, p2, r0, r1, r2, sqrt).Some?
    ensures var (a, b) := Trilaterate3(p0, p1, p2, r0, r1, r2, sqrt).value;
      q == if Abs(Norm(Sub(a, p3), sqrt) - r3) <= Abs(Norm(Sub(b, p3), sqrt) - r3) then a else b
  {
    FrameIffSpanning(p0, p1, p2, sqrt);
    Trilaterate3Complete(p0, p1, p2, r0, r1, r2, sqrt, q);
    FarApart(p0, p1, p2, p3, r0, r1, r2, sqrt);
    var (a, b) := Trilaterate3(p0, p1, p2, r0, r1, r2, sqrt).value;
    NearestIs(a, b, q, p3, r3, sqrt);
  }

  lemma DistanceIs(q: Vec, p: Vec, r: real, sqrt: real -> real)
    requires IsRoot(sqrt) && r >= 0.0 && Dist2(q, p) == Sq(r)
    ensures Norm(Sub(q, p), sqrt) == r
  {
    NormIs(Sub(q, p), Dist2(q, p), r, sqrt);
  }

  lemma NormIs(v: Vec, x: real, r: real, sqrt: real -> real)
    requires IsRoot(sqrt) && r >= 0.0 && x == Dot(v, v) && x == Sq(r)
    ensures Norm(v, sqrt) == r
  {
    SqPositive(r);
    RootIs(x, sqrt, r);
  }

  lemma SameDistance(a: Vec, b: Vec, p: Vec, sqrt: real -> real)
    requires IsRoot(sqrt) && Norm(Sub(a, p), sqrt) == Norm(Sub(b, p), sqrt)
    ensures Dist2(a, p) == Dist2(b, p)
  {
    LengthIs(Sub(a, p), Norm(Sub(a, p), sqrt), sqrt);
    LengthIs(Sub(b, p), Norm(Sub(b, p), sqrt), sqrt);
  }

  lemma NearestIs(a: Vec, b: Vec, q: Vec, p: Vec, r: real, sqrt: real -> real)
    requires IsRoot(sqrt) && (q == a || q == b) && r >= 0.0 && Dist2(q, p) == Sq(r)
    requires Dist2(a, p) == Dist2(b, p) ==> a == b
    ensures q == if Abs(Norm(Sub(a, p), sqrt) - r) <= Abs(Norm(Sub(b, p), sqrt) - r) then a else b
  {
    DistanceIs(q, p, r, sqrt);
    if Norm(Sub(a, p), sqrt) == Norm(Sub(b, p), sqrt) { SameDistance(a, b, p, sqrt); }
    Chosen(a, b, q, Norm(Sub(a, p), sqrt), Norm(Sub(b, p), sqrt), r);
  }

  // ---- The side of a plane ----

  lemma SidesOpposite(p0: Vec, p1: Vec, p2: Vec, r0: real, r1: real, r2: real, sqrt: real -> real)
    requires IsRoot(sqrt) && Trilaterate3(p0, p1, p2, r0, r1, r2, sqrt).Some?
    ensures var (a, b) := Trilaterate3(p0, p1, p2, r0, r1, r2, sqrt).value; Volume(p0, p1, p2, a) == -Volume(p0, p1, p2, b)
  {
    Trilaterate3Mirrored(p0, p1, p2, r0, r1, r2, sqrt);
  }

  /** Of two answers on opposite sides, the one taken for a point on side c is on that side, and
      is the only one strictly there. */
  lemma SideTaken<P>(a: P, b: P, c: real, va: real, vb: real)
    requires va == -vb
    ensures var (taken, v) := if (c >= 0.0) == (va >= 0.0) then (a, va) else (b, vb);
      && (c >= 0.0 ==> v >= 0.0) && (c < 0.0 ==> v <= 0.0)
      && ((if c >= 0.0 then va > 0.0 else va < 0.0) ==> taken == a)
      && ((if c >= 0.0 then vb > 0.0 else vb < 0.0) ==> taken == b)
  {}

  // ---- Two circles ----

  predicate Distinct2(p0: T2.Point, p1: T2.Point) { T2.PlaneDist2(p1, p0) >= Sq(EPS) }

  lemma LineIffDistinct(p0: T2.Point, p1: T2.Point, sqrt: real -> real)
    requires IsRoot(sqrt)
    ensures T2.LineThrough(p0, p1, sqrt).Some? <==> Distinct2(p0, p1)
  {
    SqPositive(p1.x - p0.x);
    SqPositive(p1.y - p0.y);
    RootAtLeast(T2.PlaneDist2(p1, p0), sqrt, EPS);
  }

  ghost predicate Reached2(p0: T2.Point, p1: T2.Point, r0: real, r1: real) {
    exists q, excess :: 0.0 <= excess <= Sq(0.1 * r0) && T2.NearBoth(q, p0, p1, r0, r1, excess)
  }

  /** Two circles are intersected exactly when their centres are apart and they meet or nearly do. */
  lemma Trilaterate2Succeeds(p0: T2.Point, p1: T2.Point, r0: real, r1: real, sqrt: real -> real)
    requires IsRoot(sqrt)
    ensures T2.Trilaterate2(p0, p1, r0, r1, sqrt).Some? <==> Distinct2(p0, p1) && Reached2(p0, p1, r0, r1)
  {
    LineIffDistinct(p0, p1, sqrt);
    SqPositive(0.1 * r0);
    if T2.Trilaterate2(p0, p1, r0, r1, sqrt).Some? {
      var excess := T2.Trilaterate2Sound(p0, p1, r0, r1, sqrt);
      assert T2.NearBoth(T2.Trilaterate2(p0, p1, r0, r1, sqrt).value.0, p0, p1, r0, r1, excess);
    } else if Distinct2(p0, p1) && Reached2(p0, p1, r0, r1) {
      var q, excess :| 0.0 <= excess <= Sq(0.1 * r0) && T2.NearBoth(q, p0, p1, r0, r1, excess);
      NearIsReached2(p0, p1, r0, r1, sqrt, q, excess);
    }
  }

  lemma NearIsReached2(p0: T2.Point, p1: T2.Point, r0: real, r1: real, sqrt: real -> real, q: T2.Point, excess: real)
    requires IsRoot(sqrt) && T2.LineThrough(p0, p1, sqrt).Some?
    requires 0.0 <= excess <= Sq(0.1 * r0) && T2.NearBoth(q, p0, p1, r0, r1, excess)
    ensures T2.Trilaterate2(p0, p1, r0, r1, sqrt).Some?
  {
    var l := T2.LineThrough(p0, p1, sqrt).value;
    T2.LineLeads(p0, p1, sqrt);
    var x, w := T2.AnyPointIsBeside(p0, l, q);
    T2.BesideNearBoth(p0, p1, r0, r1, l, x, w, excess);
    SqPositive(w);
  }

  lemma BesideApart(p0: T2.Point, l: T2.Line, x: real, y: real, a: real, b: real)
    requires Sq(l.u) + Sq(l.v) == 1.0
    ensures T2.PlaneDist2(T2.Beside(p0, l, x, y), T2.Beside(p0, l, a, b)) == Sq(x - a) + Sq(y - b)
  {
    var q, p := T2.Beside(p0, l, x, y), T2.Beside(p0, l, a, b);
    StepsApart(x, y, a, b, l.u, l.v);
    T2.Rotated(x - a, y - b, l.u, l.v, q.x - p.x, q.y - p.y);
  }

  lemma StepsApart(x: real, y: real, a: real, b: real, u: real, v: real)
    ensures (x * u + y * -v) - (a * u + b * -v) == (x - a) * u + (y - b) * -v
    ensures (x * v + y * u) - (a * v + b * u) == (x - a) * v + (y - b) * u
  {}

  lemma AreaBeside(p0: T2.Point, p1: T2.Point, l: T2.Line, a: real, b: real)
    requires T2.Leads(l, p0, p1) && b == 0.0
    ensures T2.Area2(p0, p1, T2.Beside(p0, l, a, b)) == 0.0
  {
    var ux, uy := p1.x - p0.x, p1.y - p0.y;
    assert ux == l.d * l.u && uy == l.d * l.v;
    Crossed(l.d, l.u, l.v, a, ux, uy);
  }

  lemma Crossed(d: real, u: real, v: real, a: real, ux: real, uy: real)
    requires ux == d * u && uy == d * v
    ensures ux * (a * v) - uy * (a * u) == 0.0
  {
    assert ux * (a * v) == d * a * (u * v);
  }

  lemma BesidesDiffer(x: real, y: real, a: real, b: real)
    requires b != 0.0 && Sq(x - a) + Sq(y - b) == Sq(x - a) + Sq(-y - b)
    ensures y == 0.0
  {
    assert Sq(y - b) - Sq(-y - b) == -4.0 * (y * b);
  }

  lemma FarApart2(p0: T2.Point, p1: T2.Point, p2: T2.Point, r0: real, r1: real, sqrt: real -> real)
    requires IsRoot(sqrt) && T2.Trilaterate2(p0, p1, r0, r1, sqrt).Some? && T2.Area2(p0, p1, p2) != 0.0
    ensures var (a, b) := T2.Trilaterate2(p0, p1, r0, r1, sqrt).value;
      T2.PlaneDist2(a, p2) == T2.PlaneDist2(b, p2) ==> a == b
  {
    var l := T2.LineThrough(p0, p1, sqrt).value;
    T2.LineLeads(p0, p1, sqrt);
    var x := RadicalX(l.d, r0, r1);
    var y := Height(Sq(r0) - Sq(x), r0, sqrt).value;
    var c, h := T2.AnyPointIsBeside(p0, l, p2);
    if h == 0.0 { AreaBeside(p0, p1, l, c, h); }
    BesideApart(p0, l, x, y, c, h);
    BesideApart(p0, l, x, -y, c, h);
    if T2.PlaneDist2(T2.Beside(p0, l, x, y), p2) == T2.PlaneDist2(T2.Beside(p0, l, x, -y), p2) { BesidesDiffer(x, y, c, h); }
  }

  lemma PlaneDistanceIs(a: T2.Point, p: T2.Point, sqrt: real -> real)
    requires IsRoot(sqrt)
    ensures sqrt(T2.PlaneDist2(a, p)) >= 0.0 && Sq(sqrt(T2.PlaneDist2(a, p))) == T2.PlaneDist2(a, p)
  {
    SqPositive(a.x - p.x);
    SqPositive(a.y - p.y);
  }

  /** Of the two intersections of two circles, a point that is also on a third is the one that
      disagrees less with it. */
  lemma ThirdTells(p0: T2.Point, p1: T2.Point, p2: T2.Point, r0: real, r1: real, r2: real, sqrt: real -> real, q: T2.Point)
    requires IsRoot(sqrt) && Distinct2(p0, p1) && T2.Area2(p0, p1, p2) != 0.0
    requires T2.NearBoth(q, p0, p1, r0, r1, 0.0) && r2 >= 0.0 && T2.PlaneDist2(q, p2) == Sq(r2)
    ensures T2.Trilaterate2(p0, p1, r0, r1, sqrt).Some?
    ensures var (a, b) := T2.Trilaterate2(p0, p1, r0, r1, sqrt).value;
      q == if Abs(sqrt(T2.PlaneDist2(a, p2)) - r2) <= Abs(sqrt(T2.PlaneDist2(b, p2)) - r2) then a else b
  {
    LineIffDistinct(p0, p1, sqrt);
    T2.Trilaterate2Complete(p0, p1, r0, r1, sqrt, q);
    FarApart2(p0, p1, p2, r0, r1, sqrt);
    var (a, b) := T2.Trilaterate2(p0, p1, r0, r1, sqrt).value;
    PlaneDistanceIs(a, p2, sqrt);
    PlaneDistanceIs(b, p2, sqrt);
    SqPositive(r2);
    RootIs(T2.PlaneDist2(q, p2), sqrt, r2);
    Chosen(a, b, q, sqrt(T2.PlaneDist2(a, p2)), sqrt(T2.PlaneDist2(b, p2)), r2);
  }
}
