/** Intersections of spheres and circles: the placement step of the survey geometry, over
    exact reals, with the square root as a parameter. */
module Trilateration {

  import opened Options
  import opened SurveyFit

  /** Lengths below this are degenerate. */
  const EPS: real := 0.000001

  ghost predicate IsRoot(sqrt: real -> real) {
    forall x :: x >= 0.0 ==> sqrt(x) >= 0.0 && sqrt(x) * sqrt(x) == x
  }

  function Sq(a: real): real { a * a }
  function Sub(a: Vec, b: Vec): Vec { Vec(a.x - b.x, a.y - b.y, a.z - b.z) }
  function Add(a: Vec, b: Vec): Vec { Vec(a.x + b.x, a.y + b.y, a.z + b.z) }
  function Scale(s: real, a: Vec): Vec { Vec(s * a.x, s * a.y, s * a.z) }
  function Dot(a: Vec, b: Vec): real { a.x * b.x + a.y * b.y + a.z * b.z }
  function Norm(a: Vec, sqrt: real -> real): real { sqrt(Dot(a, a)) }
  function Cross(a: Vec, b: Vec): Vec {
    Vec(a.y * b.z - a.z * b.y, a.z * b.x - a.x * b.z, a.x * b.y - a.y * b.x)
  }
  function Dist2(a: Vec, b: Vec): real { Dot(Sub(a, b), Sub(a, b)) }

  lemma DotAdd(a: Vec, b: Vec, c: Vec)
    ensures Dot(Add(a, b), c) == Dot(a, c) + Dot(b, c)
  {}
  lemma DotScale(s: real, a: Vec, b: Vec)
    ensures Dot(Scale(s, a), b) == s * Dot(a, b)
  {}
  lemma DotSym(a: Vec, b: Vec)
    ensures Dot(a, b) == Dot(b, a)
  {}
  lemma CrossPerp(a: Vec, b: Vec)
    ensures Dot(Cross(a, b), a) == 0.0 && Dot(Cross(a, b), b) == 0.0
  {}
  lemma Lagrange(a: Vec, b: Vec)
    ensures Dot(Cross(a, b), Cross(a, b)) == Dot(a, a) * Dot(b, b) - Dot(a, b) * Dot(a, b)
  {}
  lemma BacCabComponent(a1: real, a2: real, a3: real, b1: real, b2: real, b3: real,
                        w1: real, w2: real, w3: real, c2: real, c3: real, p: real, q: real)
    requires c2 == a3 * b1 - a1 * b3 && c3 == a1 * b2 - a2 * b1
    requires p == a1 * w1 + a2 * w2 + a3 * w3 && q == b1 * w1 + b2 * w2 + b3 * w3
    ensures c2 * w3 - c3 * w2 == p * b1 - q * a1
  {
    assert c2 * w3 == a3 * b1 * w3 - a1 * b3 * w3;
    assert c3 * w2 == a1 * b2 * w2 - a2 * b1 * w2;
    assert p * b1 == a1 * w1 * b1 + a2 * w2 * b1 + a3 * w3 * b1;
    assert q * a1 == b1 * w1 * a1 + b2 * w2 * a1 + b3 * w3 * a1;
  }
  lemma VectorOf(c: Vec, w: Vec, p: real, a: Vec, q: real, b: Vec)
    requires c.y * w.z - c.z * w.y == p * b.x - q * a.x
    requires c.z * w.x - c.x * w.z == p * b.y - q * a.y
    requires c.x * w.y - c.y * w.x == p * b.z - q * a.z
    ensures Cross(c, w) == Sub(Scale(p, b), Scale(q, a))
  {}

  lemma BacCab(a: Vec, b: Vec, w: Vec)
    ensures Cross(Cross(a, b), w) == Sub(Scale(Dot(a, w), b), Scale(Dot(b, w), a))
  {
    var c, p, q := Cross(a, b), Dot(a, w), Dot(b, w);
    BacCabComponent(a.x, a.y, a.z, b.x, b.y, b.z, w.x, w.y, w.z, c.y, c.z, p, q);
    BacCabComponent(a.y, a.z, a.x, b.y, b.z, b.x, w.y, w.z, w.x, c.z, c.x, p, q);
    BacCabComponent(a.z, a.x, a.y, b.z, b.x, b.y, w.z, w.x, w.y, c.x, c.y, p, q);
    VectorOf(c, w, p, a, q, b);
  }

  // ---- Three spheres ----

  /** Unit axes of the plane through three centres: the second centre is at d * ex, the third at i * ex + j * ey. */
  datatype Frame = Frame(ex: Vec, ey: Vec, ez: Vec, d: real, i: real, j: real)

  /** None when the first two centres coincide or all three are on a line. */
  function PlaneFrame(p0: Vec, p1: Vec, p2: Vec, sqrt: real -> real): (f: Option<Frame>)
    ensures f.Some? ==> f.value.d >= EPS && f.value.j >= EPS
  {
    var d := Norm(Sub(p1, p0), sqrt);
    if d < EPS then None else
    var ex := Scale(1.0 / d, Sub(p1, p0));
    var i := Dot(ex, Sub(p2, p0));
    var t := Sub(Sub(p2, p0), Scale(i, ex));
    var j := Norm(t, sqrt);
    if j < EPS then None else
    var ey := Scale(1.0 / j, t);
    Some(Frame(ex, ey, Cross(ex, ey), d, i, j))
  }

  function PointAt(p0: Vec, f: Frame, x: real, y: real, z: real): Vec {
    Add(Add(Add(p0, Scale(x, f.ex)), Scale(y, f.ey)), Scale(z, f.ez))
  }

  /** The root of the squared height, or 0 when it falls short by at most a tenth of the
      first radius; None for a larger shortfall. */
  function Height(z2: real, r0: real, sqrt: real -> real): Option<real> {
    if z2 < 0.0 then
      if -z2 > (0.1 * r0) * (0.1 * r0) then None else Some(0.0)
    else Some(sqrt(z2))
  }

  function RadicalX(d: real, r0: real, r1: real): real
    requires d != 0.0
  {
    (r0 * r0 - r1 * r1 + d * d) / (2.0 * d)
  }

  function RadicalY(i: real, j: real, r0: real, r2: real, x: real): real
    requires j != 0.0
  {
    (r0 * r0 - r2 * r2 + i * i + j * j) / (2.0 * j) - (i / j) * x
  }

  function Trilaterate3(p0: Vec, p1: Vec, p2: Vec, r0: real, r1: real, r2: real, sqrt: real -> real)
    : Option<(Vec, Vec)>
  {
    match PlaneFrame(p0, p1, p2, sqrt)
    case None => None
    case Some(f) =>
      var x := RadicalX(f.d, r0, r1);
      var y := RadicalY(f.i, f.j, r0, r2, x);
      match Height(Sq(r0) - Sq(x) - Sq(y), r0, sqrt)
      case None => None
      case Some(z) => Some((PointAt(p0, f, x, y, z), PointAt(p0, f, x, y, -z)))
  }

  ghost predicate Orthonormal(f: Frame) {
    && Dot(f.ex, f.ex) == 1.0 && Dot(f.ey, f.ey) == 1.0 && Dot(f.ez, f.ez) == 1.0
    && Dot(f.ex, f.ey) == 0.0 && Dot(f.ex, f.ez) == 0.0 && Dot(f.ey, f.ez) == 0.0
    && f.ez == Cross(f.ex, f.ey)
  }

  lemma UnitVector(v: Vec, n: real)
    requires n > 0.0 && n * n == Dot(v, v)
    ensures Dot(Scale(1.0 / n, v), Scale(1.0 / n, v)) == 1.0 && Scale(n, Scale(1.0 / n, v)) == v
  {
    var s := 1.0 / n;
    assert s * n == 1.0;
    var u := Scale(s, v);
    DotScale(s, v, u);
    DotSym(v, u);
    DotScale(s, v, v);
    assert s * (s * (n * n)) == (s * n) * (s * n);
    assert n * u.x == (s * n) * v.x;
    assert n * u.y == (s * n) * v.y;
    assert n * u.z == (s * n) * v.z;
  }

  /** The axis along v. */
  lemma Axis(v: Vec, sqrt: real -> real)
    requires IsRoot(sqrt) && Norm(v, sqrt) >= EPS
    ensures var n := Norm(v, sqrt);
      var e := Scale(1.0 / n, v); Dot(e, e) == 1.0 && Scale(n, e) == v
  {
    SquaresArePositive(v);
    UnitVector(v, Norm(v, sqrt));
  }

  lemma SecondAxis(v: Vec, ex: Vec, i: real, t: Vec, s: real)
    requires Dot(ex, ex) == 1.0 && i == Dot(ex, v) && t == Sub(v, Scale(i, ex))
    ensures Dot(ex, Scale(s, t)) == 0.0
  {
    TakeOffComponent(v, ex, i);
    DotScale(s, t, ex);
    DotSym(ex, Scale(s, t));
  }

  lemma ThirdAxis(ex: Vec, ey: Vec)
    requires Dot(ex, ex) == 1.0 && Dot(ey, ey) == 1.0 && Dot(ex, ey) == 0.0
    ensures var ez := Cross(ex, ey); Dot(ez, ez) == 1.0 && Dot(ex, ez) == 0.0 && Dot(ey, ez) == 0.0
  {
    CrossPerp(ex, ey);
    DotSym(ex, Cross(ex, ey));
    DotSym(ey, Cross(ex, ey));
    Lagrange(ex, ey);
  }

  lemma PointOf(p0: Vec, p: Vec, f: Frame, x: real, y: real)
    requires Sub(p, p0) == Add(Scale(x, f.ex), Scale(y, f.ey))
    ensures p == PointAt(p0, f, x, y, 0.0)
  {
    assert Scale(0.0, f.ez) == Vec(0.0, 0.0, 0.0);
    var q := PointAt(p0, f, x, y, 0.0);
    assert q.x == p0.x + (x * f.ex.x + y * f.ey.x);
    assert q.y == p0.y + (x * f.ex.y + y * f.ey.y);
    assert q.z == p0.z + (x * f.ex.z + y * f.ey.z);
  }

  lemma PointOnFirstAxis(p0: Vec, p: Vec, f: Frame, x: real)
    requires Sub(p, p0) == Scale(x, f.ex)
    ensures p == PointAt(p0, f, x, 0.0, 0.0)
  {
    assert Scale(0.0, f.ey) == Vec(0.0, 0.0, 0.0);
    PointOf(p0, p, f, x, 0.0);
  }

  lemma SubThenAdd(v: Vec, w: Vec, u: Vec)
    requires u == Sub(v, w)
    ensures v == Add(w, u)
  {}

  lemma FrameIsOrthonormal(p0: Vec, p1: Vec, p2: Vec, sqrt: real -> real)
    requires IsRoot(sqrt) && PlaneFrame(p0, p1, p2, sqrt).Some?
    ensures Orthonormal(PlaneFrame(p0, p1, p2, sqrt).value)
  {
    var f := PlaneFrame(p0, p1, p2, sqrt).value;
    Axis(Sub(p1, p0), sqrt);
    var t := Sub(Sub(p2, p0), Scale(f.i, f.ex));
    Axis(t, sqrt);
    SecondAxis(Sub(p2, p0), f.ex, f.i, t, 1.0 / f.j);
    ThirdAxis(f.ex, f.ey);
  }

  lemma CentresInFrame(p0: Vec, p1: Vec, p2: Vec, sqrt: real -> real)
    requires IsRoot(sqrt) && PlaneFrame(p0, p1, p2, sqrt).Some?
    ensures var f := PlaneFrame(p0, p1, p2, sqrt).value;
      && p0 == PointAt(p0, f, 0.0, 0.0, 0.0)
      && p1 == PointAt(p0, f, f.d, 0.0, 0.0)
      && p2 == PointAt(p0, f, f.i, f.j, 0.0)
  {
    var f := PlaneFrame(p0, p1, p2, sqrt).value;
    assert p0 == PointAt(p0, f, 0.0, 0.0, 0.0) by { PointOnFirstAxis(p0, p0, f, 0.0); }
    assert p1 == PointAt(p0, f, f.d, 0.0, 0.0) by {
      Axis(Sub(p1, p0), sqrt);
      PointOnFirstAxis(p0, p1, f, f.d);
    }
    assert p2 == PointAt(p0, f, f.i, f.j, 0.0) by {
      var t := Sub(Sub(p2, p0), Scale(f.i, f.ex));
      Axis(t, sqrt);
      SubThenAdd(Sub(p2, p0), Scale(f.i, f.ex), t);
      PointOf(p0, p2, f, f.i, f.j);
    }
  }

  lemma ProductSign(a: real, b: real, c: real)
    requires c == a * b && ((a > 0.0 && b > 0.0) || (a < 0.0 && b < 0.0))
    ensures c > 0.0
  {}

  lemma SqPositive(a: real)
    ensures Sq(a) >= 0.0 && (a != 0.0 ==> Sq(a) > 0.0)
  {
    if a > 0.0 || a < 0.0 { ProductSign(a, a, Sq(a)); }
  }

  lemma SquaresArePositive(v: Vec)
    ensures Dot(v, v) >= 0.0
    ensures Dot(v, v) == 0.0 ==> v == Vec(0.0, 0.0, 0.0)
  {
    SqPositive(v.x);
    SqPositive(v.y);
    SqPositive(v.z);
    assert Dot(v, v) == Sq(v.x) + Sq(v.y) + Sq(v.z);
    if Dot(v, v) == 0.0 {
      assert v.x == 0.0 && v.y == 0.0 && v.z == 0.0;
    }
  }

  lemma TakeOffComponent(v: Vec, e: Vec, i: real)
    requires Dot(e, e) == 1.0 && i == Dot(e, v)
    ensures Dot(Sub(v, Scale(i, e)), e) == 0.0
  {
    DotSym(e, v);
    DotScale(i, e, e);
    DotSub(v, Scale(i, e), e);
  }

  lemma DotSub(a: Vec, b: Vec, c: Vec)
    ensures Dot(Sub(a, b), c) == Dot(a, c) - Dot(b, c)
  {}

  /** The squared length of x * ex + y * ey + z * ez. */
  lemma LengthInFrame(f: Frame, x: real, y: real, z: real)
    requires Orthonormal(f)
    ensures var v := Add(Add(Scale(x, f.ex), Scale(y, f.ey)), Scale(z, f.ez));
      && Dot(v, v) == Sq(x) + Sq(y) + Sq(z)
      && Dot(v, f.ex) == x && Dot(v, f.ey) == y && Dot(v, f.ez) == z
  {
    var v := Add(Add(Scale(x, f.ex), Scale(y, f.ey)), Scale(z, f.ez));
    Components(f, x, y, z, f.ex);
    Components(f, x, y, z, f.ey);
    Components(f, x, y, z, f.ez);
    DotSym(f.ex, f.ey); DotSym(f.ex, f.ez); DotSym(f.ey, f.ez);
    assert Dot(v, f.ex) == x && Dot(v, f.ey) == y && Dot(v, f.ez) == z;
    Components(f, x, y, z, v);
    DotSym(v, f.ex); DotSym(v, f.ey); DotSym(v, f.ez);
  }

  lemma Components(f: Frame, x: real, y: real, z: real, w: Vec)
    ensures Dot(Add(Add(Scale(x, f.ex), Scale(y, f.ey)), Scale(z, f.ez)), w)
      == x * Dot(f.ex, w) + y * Dot(f.ey, w) + z * Dot(f.ez, w)
  {
    DotAdd(Add(Scale(x, f.ex), Scale(y, f.ey)), Scale(z, f.ez), w);
    DotAdd(Scale(x, f.ex), Scale(y, f.ey), w);
    DotScale(x, f.ex, w);
    DotScale(y, f.ey, w);
    DotScale(z, f.ez, w);
  }

  lemma DistInFrame(p0: Vec, f: Frame, x: real, y: real, z: real, a: real, b: real, c: real)
    requires Orthonormal(f)
    ensures Dist2(PointAt(p0, f, x, y, z), PointAt(p0, f, a, b, c)) == Sq(x - a) + Sq(y - b) + Sq(z - c)
  {
    LengthInFrame(f, x - a, y - b, z - c);
    var v := Add(Add(Scale(x - a, f.ex), Scale(y - b, f.ey)), Scale(z - c, f.ez));
    var u := Sub(PointAt(p0, f, x, y, z), PointAt(p0, f, a, b, c));
    DifferenceComponent(p0.x, f.ex.x, f.ey.x, f.ez.x, x, y, z, a, b, c);
    DifferenceComponent(p0.y, f.ex.y, f.ey.y, f.ez.y, x, y, z, a, b, c);
    DifferenceComponent(p0.z, f.ex.z, f.ey.z, f.ez.z, x, y, z, a, b, c);
    assert u == v;
  }

  lemma DifferenceComponent(o: real, e1: real, e2: real, e3: real, x: real, y: real, z: real, a: real, b: real, c: real)
    ensures (o + x * e1 + y * e2 + z * e3) - (o + a * e1 + b * e2 + c * e3) == (x - a) * e1 + (y - b) * e2 + (z - c) * e3
  {}

  /** Every point has coordinates in the frame. */
  lemma FrameSpans(p0: Vec, f: Frame, q: Vec) returns (x: real, y: real, z: real)
    requires Orthonormal(f)
    ensures q == PointAt(p0, f, x, y, z)
  {
    var v := Sub(q, p0);
    x, y, z := Dot(v, f.ex), Dot(v, f.ey), Dot(v, f.ez);
    var u := Add(Add(Scale(x, f.ex), Scale(y, f.ey)), Scale(z, f.ez));
    LengthInFrame(f, x, y, z);
    var w := Sub(v, u);
    DotSub(v, u, f.ex); DotSub(v, u, f.ey); DotSub(v, u, f.ez);
    PerpToAllIsZero(f, w);
  }

  /** Only the zero vector is perpendicular to all three axes. */
  lemma PerpToAllIsZero(f: Frame, w: Vec)
    requires Orthonormal(f) && Dot(w, f.ex) == 0.0 && Dot(w, f.ey) == 0.0 && Dot(w, f.ez) == 0.0
    ensures w == Vec(0.0, 0.0, 0.0)
  {
    DotSym(w, f.ex); DotSym(w, f.ey);
    BacCab(f.ex, f.ey, w);
    Combination(f.ey, f.ex);
    ParallelAndPerp(f.ez, w);
  }

  lemma Combination(a: Vec, b: Vec)
    ensures Sub(Scale(0.0, a), Scale(0.0, b)) == Vec(0.0, 0.0, 0.0) && Sub(Scale(1.0, a), Scale(0.0, b)) == a
    ensures Cross(Vec(0.0, 0.0, 0.0), a) == Vec(0.0, 0.0, 0.0)
  {}

  /** A vector both parallel and perpendicular to a unit vector is zero. */
  lemma ParallelAndPerp(e: Vec, w: Vec)
    requires Dot(e, e) == 1.0 && Dot(w, e) == 0.0 && Cross(e, w) == Vec(0.0, 0.0, 0.0)
    ensures w == Vec(0.0, 0.0, 0.0)
  {
    BacCab(e, w, e);
    Combination(w, e);
    Combination(e, e);
  }

  /** The coordinates at which the three squared distances differ from the squared radii by the same amount. */
  lemma RadicalPoint(d: real, i: real, j: real, r0: real, r1: real, r2: real, x: real, y: real)
    requires d != 0.0 && j != 0.0
    ensures x == RadicalX(d, r0, r1) <==> Sq(x) - Sq(r0) == Sq(x - d) - Sq(r1)
    ensures y == RadicalY(i, j, r0, r2, x) <==> Sq(x) + Sq(y) - Sq(r0) == Sq(x - i) + Sq(y - j) - Sq(r2)
  {
    RadicalAlong(d, r0, r1, x);
    RadicalAcross(i, j, r0, r2, x, y);
  }

  lemma RadicalAlong(d: real, r0: real, r1: real, x: real)
    requires d != 0.0
    ensures x == RadicalX(d, r0, r1) <==> Sq(x) - Sq(r0) == Sq(x - d) - Sq(r1)
  {
    Quotient(r0 * r0 - r1 * r1 + d * d, 2.0 * d, x);
    assert Sq(x - d) == x * x - x * (2.0 * d) + d * d;
  }

  lemma RadicalAcross(i: real, j: real, r0: real, r2: real, x: real, y: real)
    requires j != 0.0
    ensures y == RadicalY(i, j, r0, r2, x) <==> Sq(x) + Sq(y) - Sq(r0) == Sq(x - i) + Sq(y - j) - Sq(r2)
  {
    var k, slope := r0 * r0 - r2 * r2 + i * i + j * j, i / j;
    var yy := y + slope * x;
    Quotient(k, 2.0 * j, yy);
    SlopeTimes(i, j, slope, x, y);
    SquareOfDifference(x, i);
    SquareOfDifference(y, j);
  }

  lemma SquareOfDifference(x: real, i: real)
    ensures Sq(x - i) == Sq(x) - 2.0 * (x * i) + i * i && Sq(x) == x * x
  {}

  lemma SlopeTimes(i: real, j: real, slope: real, x: real, y: real)
    requires slope * j == i
    ensures (y + slope * x) * (2.0 * j) == 2.0 * (y * j) + 2.0 * (x * i)
  {
    assert (slope * x) * j == x * (slope * j);
  }

  lemma Quotient(num: real, den: real, q: real)
    requires den != 0.0
    ensures q == num / den <==> q * den == num
  {
    assert num / den * den == num;
    if q * den == num {
      assert (q - num / den) * den == 0.0;
    }
  }

  /** q is at distance r0, r1 and r2 from the three centres, up to a common excess in the squares. */
  ghost predicate Near(q: Vec, p0: Vec, p1: Vec, p2: Vec, r0: real, r1: real, r2: real, excess: real) {
    Dist2(q, p0) == Sq(r0) + excess && Dist2(q, p1) == Sq(r1) + excess && Dist2(q, p2) == Sq(r2) + excess
  }

  ghost predicate OnSpheres(q: Vec, p0: Vec, p1: Vec, p2: Vec, r0: real, r1: real, r2: real) {
    Near(q, p0, p1, p2, r0, r1, r2, 0.0)
  }

  /** Two points on either side of the plane of the centres: their difference is normal to
      it, and their signed heights over it are opposite. */
  ghost predicate Mirrored(a: Vec, b: Vec, p0: Vec, p1: Vec, p2: Vec) {
    var u, v := Sub(p1, p0), Sub(p2, p0);
    && Dot(Sub(a, b), u) == 0.0 && Dot(Sub(a, b), v) == 0.0
    && Dot(Sub(a, p0), Cross(u, v)) == -Dot(Sub(b, p0), Cross(u, v))
  }

  lemma NearInFrame(p0: Vec, p1: Vec, p2: Vec, r0: real, r1: real, r2: real, f: Frame,
                    x: real, y: real, z: real, excess: real)
    requires Orthonormal(f) && f.d != 0.0 && f.j != 0.0
    requires p0 == PointAt(p0, f, 0.0, 0.0, 0.0) && p1 == PointAt(p0, f, f.d, 0.0, 0.0) && p2 == PointAt(p0, f, f.i, f.j, 0.0)
    ensures Near(PointAt(p0, f, x, y, z), p0, p1, p2, r0, r1, r2, excess) <==>
      x == RadicalX(f.d, r0, r1) && y == RadicalY(f.i, f.j, r0, r2, x) && Sq(x) + Sq(y) + Sq(z) == Sq(r0) + excess
  {
    DistInFrame(p0, f, x, y, z, 0.0, 0.0, 0.0);
    DistInFrame(p0, f, x, y, z, f.d, 0.0, 0.0);
    DistInFrame(p0, f, x, y, z, f.i, f.j, 0.0);
    var q := PointAt(p0, f, x, y, z);
    ThreeRadii(Dist2(q, p0), Dist2(q, p1), Dist2(q, p2), f.d, f.i, f.j, r0, r1, r2, x, y, z, excess);
  }

  lemma ThreeRadii(d0: real, d1: real, d2: real, d: real, i: real, j: real, r0: real, r1: real, r2: real,
                   x: real, y: real, z: real, excess: real)
    requires d != 0.0 && j != 0.0
    requires d0 == Sq(x - 0.0) + Sq(y - 0.0) + Sq(z - 0.0)
    requires d1 == Sq(x - d) + Sq(y - 0.0) + Sq(z - 0.0) && d2 == Sq(x - i) + Sq(y - j) + Sq(z - 0.0)
    ensures d0 == Sq(r0) + excess && d1 == Sq(r1) + excess && d2 == Sq(r2) + excess <==>
      x == RadicalX(d, r0, r1) && y == RadicalY(i, j, r0, r2, x) && Sq(x) + Sq(y) + Sq(z) == Sq(r0) + excess
  {
    RadicalPoint(d, i, j, r0, r1, r2, x, y);
  }

  lemma InFrameNear(p0: Vec, p1: Vec, p2: Vec, r0: real, r1: real, r2: real, sqrt: real -> real,
                    x: real, y: real, z: real, excess: real)
    requires IsRoot(sqrt) && PlaneFrame(p0, p1, p2, sqrt).Some?
    ensures var f := PlaneFrame(p0, p1, p2, sqrt).value;
      Near(PointAt(p0, f, x, y, z), p0, p1, p2, r0, r1, r2, excess) <==>
      x == RadicalX(f.d, r0, r1) && y == RadicalY(f.i, f.j, r0, r2, x) && Sq(x) + Sq(y) + Sq(z) == Sq(r0) + excess
  {
    FrameIsOrthonormal(p0, p1, p2, sqrt);
    CentresInFrame(p0, p1, p2, sqrt);
    NearInFrame(p0, p1, p2, r0, r1, r2, PlaneFrame(p0, p1, p2, sqrt).value, x, y, z, excess);
  }

  lemma Heights(z2: real, r0: real, sqrt: real -> real)
    requires IsRoot(sqrt) && Height(z2, r0, sqrt).Some?
    ensures var z := Height(z2, r0, sqrt).value;
      Sq(z) == Sq(-z) == (if z2 < 0.0 then 0.0 else z2) && (z2 < 0.0 ==> z == 0.0)
    ensures z2 < 0.0 ==> -z2 <= Sq(0.1 * r0)
  {}

  /** Both returned points are exactly as far from the three centres as measured when the
      spheres meet; otherwise they coincide, and the squared distances exceed the squared
      radii by the same amount, at most a hundredth of the first squared radius. */
  lemma Trilaterate3Sound(p0: Vec, p1: Vec, p2: Vec, r0: real, r1: real, r2: real, sqrt: real -> real) returns (excess: real)
    requires IsRoot(sqrt) && Trilaterate3(p0, p1, p2, r0, r1, r2, sqrt).Some?
    ensures var (a, b) := Trilaterate3(p0, p1, p2, r0, r1, r2, sqrt).value;
      && Near(a, p0, p1, p2, r0, r1, r2, excess) && Near(b, p0, p1, p2, r0, r1, r2, excess)
      && 0.0 <= excess && (excess > 0.0 ==> excess <= Sq(0.1 * r0) && a == b)
  {
    var f := PlaneFrame(p0, p1, p2, sqrt).value;
    var x := RadicalX(f.d, r0, r1);
    var y := RadicalY(f.i, f.j, r0, r2, x);
    var z2 := Sq(r0) - Sq(x) - Sq(y);
    var z := Height(z2, r0, sqrt).value;
    excess := if z2 < 0.0 then -z2 else 0.0;
    Heights(z2, r0, sqrt);
    InFrameNear(p0, p1, p2, r0, r1, r2, sqrt, x, y, z, excess);
    InFrameNear(p0, p1, p2, r0, r1, r2, sqrt, x, y, -z, excess);
  }

  /** With centres that span a plane, any point on all three spheres is one of the two
      returned points, and both of those are then on the spheres. */
  lemma Trilaterate3Complete(p0: Vec, p1: Vec, p2: Vec, r0: real, r1: real, r2: real, sqrt: real -> real, q: Vec)
    requires IsRoot(sqrt) && PlaneFrame(p0, p1, p2, sqrt).Some?
    requires OnSpheres(q, p0, p1, p2, r0, r1, r2)
    ensures Trilaterate3(p0, p1, p2, r0, r1, r2, sqrt).Some?
    ensures var (a, b) := Trilaterate3(p0, p1, p2, r0, r1, r2, sqrt).value;
      (q == a || q == b) && OnSpheres(a, p0, p1, p2, r0, r1, r2) && OnSpheres(b, p0, p1, p2, r0, r1, r2)
  {
    var f := PlaneFrame(p0, p1, p2, sqrt).value;
    FrameIsOrthonormal(p0, p1, p2, sqrt);
    var x, y, w := FrameSpans(p0, f, q);
    InFrameNear(p0, p1, p2, r0, r1, r2, sqrt, x, y, w, 0.0);
    var z2 := Sq(r0) - Sq(x) - Sq(y);
    SqPositive(w);
    Heights(z2, r0, sqrt);
    var z := Height(z2, r0, sqrt).value;
    SameSquare(w, z);
    InFrameNear(p0, p1, p2, r0, r1, r2, sqrt, x, y, z, 0.0);
    InFrameNear(p0, p1, p2, r0, r1, r2, sqrt, x, y, -z, 0.0);
  }

  lemma SameSquare(a: real, b: real)
    requires Sq(a) == Sq(b)
    ensures a == b || a == -b
  {
    assert (a - b) * (a + b) == 0.0;
  }

  lemma MinorScale(d: real, a: real, b: real, p: real, q: real, da: real, db: real, m: real)
    requires da == d * a && db == d * b && m == a * q - b * p
    ensures da * q - db * p == d * m
  {
    assert da * q == d * (a * q);
    assert db * p == d * (b * p);
  }
  lemma CrossScale(d: real, e: Vec, w: Vec)
    ensures Cross(Scale(d, e), w) == Scale(d, Cross(e, w))
  {
    var c, s := Cross(e, w), Scale(d, e);
    MinorScale(d, e.y, e.z, w.y, w.z, s.y, s.z, c.x);
    MinorScale(d, e.z, e.x, w.z, w.x, s.z, s.x, c.y);
    MinorScale(d, e.x, e.y, w.x, w.y, s.x, s.y, c.z);
  }
  lemma CrossOwn(e: Vec, g: Vec, i: real, j: real)
    ensures Cross(e, Add(Scale(i, e), Scale(j, g))) == Scale(j, Cross(e, g))
  {
    CrossAdd(e, Scale(i, e), Scale(j, g));
    CrossOfMultiples(e, g, i, j);
  }
  lemma CrossAdd(e: Vec, a: Vec, b: Vec)
    ensures Cross(e, Add(a, b)) == Add(Cross(e, a), Cross(e, b))
  {}
  lemma CrossOfMultiples(e: Vec, g: Vec, i: real, j: real)
    ensures Cross(e, Scale(i, e)) == Vec(0.0, 0.0, 0.0) && Cross(e, Scale(j, g)) == Scale(j, Cross(e, g))
  {
    CrossOfMultiple(e, e, i);
    CrossOfMultiple(e, g, j);
    assert Cross(e, e) == Vec(0.0, 0.0, 0.0);
  }

  lemma CrossOfMultiple(e: Vec, g: Vec, s: real)
    ensures Cross(e, Scale(s, g)) == Scale(s, Cross(e, g))
  {
    var u, v := Cross(e, Scale(s, g)), Cross(e, g);
    CrossComponent(e.y, e.z, g.y, g.z, s, u.x, v.x);
    CrossComponent(e.z, e.x, g.z, g.x, s, u.y, v.y);
    CrossComponent(e.x, e.y, g.x, g.y, s, u.z, v.z);
    MultipleOf(u, v, s);
  }

  lemma CrossComponent(a: real, b: real, c: real, d: real, s: real, u: real, v: real)
    requires u == a * (s * d) - b * (s * c) && v == a * d - b * c
    ensures u == s * v
  {
    assert a * (s * d) == s * (a * d) && b * (s * c) == s * (b * c);
  }

  lemma MultipleOf(u: Vec, v: Vec, s: real)
    requires u.x == s * v.x && u.y == s * v.y && u.z == s * v.z
    ensures u == Scale(s, v)
  {}

  lemma ScaleScale(d: real, j: real, v: Vec)
    ensures Scale(d, Scale(j, v)) == Scale(d * j, v)
  {}

  /** The two returned points are mirror images in the plane of the centres. */
  lemma Trilaterate3Mirrored(p0: Vec, p1: Vec, p2: Vec, r0: real, r1: real, r2: real, sqrt: real -> real)
    requires IsRoot(sqrt) && Trilaterate3(p0, p1, p2, r0, r1, r2, sqrt).Some?
    ensures var (a, b) := Trilaterate3(p0, p1, p2, r0, r1, r2, sqrt).value; Mirrored(a, b, p0, p1, p2)
  {
    var f := PlaneFrame(p0, p1, p2, sqrt).value;
    var x := RadicalX(f.d, r0, r1);
    var y := RadicalY(f.i, f.j, r0, r2, x);
    var z := Height(Sq(r0) - Sq(x) - Sq(y), r0, sqrt).value;
    FrameIsOrthonormal(p0, p1, p2, sqrt);
    CentresInFrame(p0, p1, p2, sqrt);
    MirroredInFrame(p0, p1, p2, f, x, y, z);
  }

  lemma FromOrigin(p0: Vec, f: Frame, x: real, y: real, z: real)
    ensures Sub(PointAt(p0, f, x, y, z), p0) == Add(Add(Scale(x, f.ex), Scale(y, f.ey)), Scale(z, f.ez))
  {}

  lemma MirroredInFrame(p0: Vec, p1: Vec, p2: Vec, f: Frame, x: real, y: real, z: real)
    requires Orthonormal(f)
    requires p1 == PointAt(p0, f, f.d, 0.0, 0.0) && p2 == PointAt(p0, f, f.i, f.j, 0.0)
    ensures Mirrored(PointAt(p0, f, x, y, z), PointAt(p0, f, x, y, -z), p0, p1, p2)
  {
    var a, b, u, v := PointAt(p0, f, x, y, z), PointAt(p0, f, x, y, -z), Sub(p1, p0), Sub(p2, p0);
    FromOrigin(p0, f, x, y, z);
    FromOrigin(p0, f, x, y, -z);
    FromOrigin(p0, f, f.d, 0.0, 0.0);
    FromOrigin(p0, f, f.i, f.j, 0.0);
    assert Sub(a, b) == Scale(2.0 * z, f.ez) by { Heightwise(p0, f, x, y, z); }
    assert Dot(Sub(a, b), u) == 0.0 by { Perpendicular(f, 2.0 * z, f.d, 0.0); }
    assert Dot(Sub(a, b), v) == 0.0 by { Perpendicular(f, 2.0 * z, f.i, f.j); }
    assert Cross(u, v) == Scale(f.d * f.j, f.ez) by {
      CrossScale(f.d, f.ex, v);
      CrossOwn(f.ex, f.ey, f.i, f.j);
      ScaleScale(f.d, f.j, f.ez);
    }
    HeightOver(p0, f, x, y, z, f.d * f.j);
    HeightOver(p0, f, x, y, -z, f.d * f.j);
    Negated(f.d * f.j, z);
  }

  lemma HeightOver(p0: Vec, f: Frame, x: real, y: real, z: real, k: real)
    requires Orthonormal(f)
    ensures Dot(Sub(PointAt(p0, f, x, y, z), p0), Scale(k, f.ez)) == Times(k, z)
  {
    var v := Sub(PointAt(p0, f, x, y, z), p0);
    FromOrigin(p0, f, x, y, z);
    LengthInFrame(f, x, y, z);
    DotScale(k, f.ez, v);
    DotSym(f.ez, v);
    DotSym(Scale(k, f.ez), v);
  }

  function Times(a: real, b: real): real { a * b }

  lemma Negated(k: real, z: real)
    ensures Times(k, -z) == -Times(k, z)
  {}

  lemma Heightwise(p0: Vec, f: Frame, x: real, y: real, z: real)
    ensures Sub(PointAt(p0, f, x, y, z), PointAt(p0, f, x, y, -z)) == Scale(2.0 * z, f.ez)
  {}

  /** The normal is perpendicular to every direction in the plane. */
  lemma Perpendicular(f: Frame, s: real, x: real, y: real)
    requires Orthonormal(f)
    ensures Dot(Scale(s, f.ez), Add(Add(Scale(x, f.ex), Scale(y, f.ey)), Scale(0.0, f.ez))) == 0.0
  {
    var w := Add(Add(Scale(x, f.ex), Scale(y, f.ey)), Scale(0.0, f.ez));
    LengthInFrame(f, x, y, 0.0);
    DotScale(s, f.ez, w);
    DotSym(w, f.ez);
  }
}
