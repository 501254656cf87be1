/** Intersections of two circles: the placement step of a survey confined to the plane z = 0. */
module PlanarTrilateration {
  import opened Options
  import opened Trilateration

  datatype Point = Point(x: real, y: real)

  function PlaneDist2(a: Point, b: Point): real { Sq(a.x - b.x) + Sq(a.y - b.y) }

  /** The unit direction from one centre to the other, and their distance d. */
  datatype Line = Line(u: real, v: real, d: real)

  /** None when the centres coincide. */
  function LineThrough(p0: Point, p1: Point, sqrt: real -> real): (l: Option<Line>)
    ensures l.Some? ==> l.value.d >= EPS
  {
    var dx, dy := p1.x - p0.x, p1.y - p0.y;
    var d := sqrt(Sq(dx) + Sq(dy));
    if d < EPS then None else Some(Line(dx / d, dy / d, d))
  }

  /** The point x along the line from p0 and y to its left. */
  function Beside(p0: Point, l: Line, x: real, y: real): Point {
    Point(p0.x + x * l.u + y * -l.v, p0.y + x * l.v + y * l.u)
  }

  function Trilaterate2(p0: Point, p1: Point, r0: real, r1: real, sqrt: real -> real): Option<(Point, Point)> {
    match LineThrough(p0, p1, sqrt)
    case None => None
    case Some(l) =>
      var x := RadicalX(l.d, r0, r1);
      match Height(Sq(r0) - Sq(x), r0, sqrt)
      case None => None
      case Some(y) => Some((Beside(p0, l, x, y), Beside(p0, l, x, -y)))
  }

  ghost predicate NearBoth(q: Point, p0: Point, p1: Point, r0: real, r1: real, excess: real) {
    PlaneDist2(q, p0) == Sq(r0) + excess && PlaneDist2(q, p1) == Sq(r1) + excess
  }

  /** l is a unit direction that leads from p0 to p1. */
  ghost predicate Leads(l: Line, p0: Point, p1: Point) {
    l.d != 0.0 && Sq(l.u) + Sq(l.v) == 1.0 && p1 == Beside(p0, l, l.d, 0.0)
  }

  lemma UnitPair(dx: real, dy: real, d: real, u: real, v: real)
    requires d > 0.0 && Sq(d) == Sq(dx) + Sq(dy) && u == dx / d && v == dy / d
    ensures Sq(u) + Sq(v) == 1.0 && d * u == dx && d * v == dy
  {
    assert dx == d * u && dy == d * v;
    assert Sq(dx) == Sq(d) * Sq(u);
    assert Sq(dy) == Sq(d) * Sq(v);
    ProductSign(d, d, Sq(d));
    var one := Sq(u) + Sq(v);
    assert Sq(d) * (one - 1.0) == 0.0;
  }

  lemma LineLeads(p0: Point, p1: Point, sqrt: real -> real)
    requires IsRoot(sqrt) && LineThrough(p0, p1, sqrt).Some?
    ensures Leads(LineThrough(p0, p1, sqrt).value, p0, p1)
  {
    var l := LineThrough(p0, p1, sqrt).value;
    var dx, dy := p1.x - p0.x, p1.y - p0.y;
    SqPositive(dx);
    SqPositive(dy);
    UnitPair(dx, dy, l.d, l.u, l.v);
  }

  /** A rotation by a unit direction keeps the length. */
  lemma Rotated(a: real, b: real, u: real, v: real, p: real, q: real)
    requires Sq(u) + Sq(v) == 1.0 && p == a * u + b * -v && q == a * v + b * u
    ensures Sq(p) + Sq(q) == Sq(a) + Sq(b)
  {
    assert Sq(p) + Sq(q) == (Sq(a) + Sq(b)) * (Sq(u) + Sq(v));
  }

  lemma Steps(a: real, b: real, d: real, u: real, v: real)
    ensures (a * u + b * -v) - (d * u + 0.0 * -v) == (a - d) * u + b * -v
    ensures (a * v + b * u) - (d * v + 0.0 * u) == (a - d) * v + b * u
  {}

  lemma BesideDistances(p0: Point, p1: Point, l: Line, x: real, y: real)
    requires Leads(l, p0, p1)
    ensures PlaneDist2(Beside(p0, l, x, y), p0) == Sq(x) + Sq(y)
    ensures PlaneDist2(Beside(p0, l, x, y), p1) == Sq(x - l.d) + Sq(y)
  {
    var q := Beside(p0, l, x, y);
    Rotated(x, y, l.u, l.v, q.x - p0.x, q.y - p0.y);
    Steps(x, y, l.d, l.u, l.v);
    Rotated(x - l.d, y, l.u, l.v, q.x - p1.x, q.y - p1.y);
  }

  lemma TwoRadii(d0: real, d1: real, d: real, r0: real, r1: real, x: real, y: real, excess: real)
    requires d != 0.0 && d0 == Sq(x) + Sq(y) && d1 == Sq(x - d) + Sq(y)
    ensures d0 == Sq(r0) + excess && d1 == Sq(r1) + excess <==>
      x == RadicalX(d, r0, r1) && Sq(x) + Sq(y) == Sq(r0) + excess
  {
    RadicalPoint(d, 0.0, 1.0, r0, r1, r0, x, y);
  }

  lemma BesideNearBoth(p0: Point, p1: Point, r0: real, r1: real, l: Line, x: real, y: real, excess: real)
    requires Leads(l, p0, p1)
    ensures NearBoth(Beside(p0, l, x, y), p0, p1, r0, r1, excess) <==>
      x == RadicalX(l.d, r0, r1) && Sq(x) + Sq(y) == Sq(r0) + excess
  {
    BesideDistances(p0, p1, l, x, y);
    var q := Beside(p0, l, x, y);
    TwoRadii(PlaneDist2(q, p0), PlaneDist2(q, p1), l.d, r0, r1, x, y, excess);
  }

  /** Both returned points are exactly as far from the two centres as measured when the
      circles meet; otherwise they coincide, and the squared distances exceed the squared
      radii by the same amount, at most a hundredth of the first squared radius. */
  lemma Trilaterate2Sound(p0: Point, p1: Point, r0: real, r1: real, sqrt: real -> real) returns (excess: real)
    requires IsRoot(sqrt) && Trilaterate2(p0, p1, r0, r1, sqrt).Some?
    ensures var (a, b) := Trilaterate2(p0, p1, r0, r1, sqrt).value;
      && NearBoth(a, p0, p1, r0, r1, excess) && NearBoth(b, p0, p1, r0, r1, excess)
      && 0.0 <= excess && (excess > 0.0 ==> excess <= Sq(0.1 * r0) && a == b)
  {
    var l := LineThrough(p0, p1, sqrt).value;
    var x := RadicalX(l.d, r0, r1);
    var y2 := Sq(r0) - Sq(x);
    var y := Height(y2, r0, sqrt).value;
    excess := if y2 < 0.0 then -y2 else 0.0;
    Heights(y2, r0, sqrt);
    LineLeads(p0, p1, sqrt);
    BesideNearBoth(p0, p1, r0, r1, l, x, y, excess);
    BesideNearBoth(p0, p1, r0, r1, l, x, -y, excess);
  }

  lemma Unrotated(w: real, t: real, u: real, v: real, a: real, b: real)
    requires Sq(u) + Sq(v) == 1.0 && a == w * u + t * v && b == t * u - w * v
    ensures a * u + b * -v == w && a * v + b * u == t
  {
    assert a * u + b * -v == w * (Sq(u) + Sq(v));
    assert a * v + b * u == t * (Sq(u) + Sq(v));
  }

  lemma AnyPointIsBeside(p0: Point, l: Line, q: Point) returns (x: real, y: real)
    requires Sq(l.u) + Sq(l.v) == 1.0
    ensures q == Beside(p0, l, x, y)
  {
    var w, t := q.x - p0.x, q.y - p0.y;
    x, y := w * l.u + t * l.v, t * l.u - w * l.v;
    Unrotated(w, t, l.u, l.v, x, y);
  }

  lemma BothIntersections(p0: Point, p1: Point, r0: real, r1: real, l: Line, q: Point, y: real)
    requires Leads(l, p0, p1) && NearBoth(q, p0, p1, r0, r1, 0.0)
    ensures var x := RadicalX(l.d, r0, r1);
      && Sq(r0) - Sq(x) >= 0.0
      && (Sq(y) == Sq(-y) == Sq(r0) - Sq(x) ==>
          && (q == Beside(p0, l, x, y) || q == Beside(p0, l, x, -y))
          && NearBoth(Beside(p0, l, x, y), p0, p1, r0, r1, 0.0) && NearBoth(Beside(p0, l, x, -y), p0, p1, r0, r1, 0.0))
  {
    var x, w := AnyPointIsBeside(p0, l, q);
    BesideNearBoth(p0, p1, r0, r1, l, x, w, 0.0);
    SqPositive(w);
    if Sq(y) == Sq(-y) == Sq(r0) - Sq(x) {
      SameSquare(w, y);
      BesideNearBoth(p0, p1, r0, r1, l, x, y, 0.0);
      BesideNearBoth(p0, p1, r0, r1, l, x, -y, 0.0);
    }
  }

  /** Any point on both circles is one of the two returned points, and both of those are
      then on the circles. */
  lemma Trilaterate2Complete(p0: Point, p1: Point, r0: real, r1: real, sqrt: real -> real, q: Point)
    requires IsRoot(sqrt) && LineThrough(p0, p1, sqrt).Some? && NearBoth(q, p0, p1, r0, r1, 0.0)
    ensures Trilaterate2(p0, p1, r0, r1, sqrt).Some?
    ensures var (a, b) := Trilaterate2(p0, p1, r0, r1, sqrt).value;
      (q == a || q == b) && NearBoth(a, p0, p1, r0, r1, 0.0) && NearBoth(b, p0, p1, r0, r1, 0.0)
  {
    var l := LineThrough(p0, p1, sqrt).value;
    LineLeads(p0, p1, sqrt);
    BothIntersections(p0, p1, r0, r1, l, q, 0.0);
    var y2 := Sq(r0) - Sq(RadicalX(l.d, r0, r1));
    Heights(y2, r0, sqrt);
    BothIntersections(p0, p1, r0, r1, l, q, Height(y2, r0, sqrt).value);
  }

  /** Twice the signed area of the triangle p0, p1, q. */
  function Area2(p0: Point, p1: Point, q: Point): real {
    (p1.x - p0.x) * (q.y - p0.y) - (p1.y - p0.y) * (q.x - p0.x)
  }

  /** The product of the direction from p0 to p1 with that from b to a. */
  function Along(p0: Point, p1: Point, a: Point, b: Point): real {
    (p1.x - p0.x) * (a.x - b.x) + (p1.y - p0.y) * (a.y - b.y)
  }

  lemma BesideMirrored(p0: Point, p1: Point, l: Line, x: real, y: real)
    requires p1 == Beside(p0, l, l.d, 0.0)
    ensures var a, b := Beside(p0, l, x, y), Beside(p0, l, x, -y);
      Along(p0, p1, a, b) == 0.0 && Area2(p0, p1, a) == -Area2(p0, p1, b)
  {
    var a, b := Beside(p0, l, x, y), Beside(p0, l, x, -y);
    var ux, uy, ax, ay, bx, by_ := p1.x - p0.x, p1.y - p0.y, a.x - p0.x, a.y - p0.y, b.x - p0.x, b.y - p0.y;
    assert ux == l.d * l.u && uy == l.d * l.v;
    Reflected(l.d, l.u, l.v, x, y, ux, uy, ax, ay, bx, by_);
    assert a.x - b.x == ax - bx && a.y - b.y == ay - by_;
  }

  /** The two returned points are mirror images in the line of the centres: their difference
      is normal to it, and they are equally far from it on opposite sides. */
  lemma Trilaterate2Mirrored(p0: Point, p1: Point, r0: real, r1: real, sqrt: real -> real)
    requires IsRoot(sqrt) && Trilaterate2(p0, p1, r0, r1, sqrt).Some?
    ensures var (a, b) := Trilaterate2(p0, p1, r0, r1, sqrt).value;
      Along(p0, p1, a, b) == 0.0 && Area2(p0, p1, a) == -Area2(p0, p1, b)
  {
    var l := LineThrough(p0, p1, sqrt).value;
    LineLeads(p0, p1, sqrt);
    var x := RadicalX(l.d, r0, r1);
    BesideMirrored(p0, p1, l, x, Height(Sq(r0) - Sq(x), r0, sqrt).value);
  }

  lemma Reflected(d: real, u: real, v: real, x: real, y: real, ux: real, uy: real, ax: real, ay: real, bx: real, by_: real)
    requires ux == d * u && uy == d * v
    requires ax == x * u + y * -v && ay == x * v + y * u
    requires bx == x * u + -y * -v && by_ == x * v + -y * u
    ensures ux * (ax - bx) + uy * (ay - by_) == 0.0
    ensures ux * ay - uy * ax == -(ux * by_ - uy * bx)
  {
    assert ax - bx == -2.0 * (y * v) && ay - by_ == 2.0 * (y * u);
    assert ux * ay - uy * ax == d * y * (u * u) + d * y * (v * v);
    assert ux * by_ - uy * bx == -(d * y * (u * u) + d * y * (v * v));
  }
}
