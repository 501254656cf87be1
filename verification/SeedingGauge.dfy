/** What the gauge placement guarantees, and exactly when it keeps the measured distances. */
module SeedingGauge {
  import opened SurveyFit
  import opened SurveyEdges
  import opened Seeding
  import opened Trilateration

  /** The three lengths close a triangle. */
  predicate Closes(a: real, b: real, c: real) { a <= b + c && b <= a + c && c <= a + b }

  lemma Heron(a: real, b: real, c: real, px: real, py2: real)
    requires a > 0.0 && px == RadicalX(a, b, c) && py2 == Sq(b) - Sq(px)
    ensures 4.0 * Sq(a) * py2 == ((a + b - c) * (a + b + c)) * ((c - a + b) * (c + a - b))
  {
    var n := b * b - c * c + a * a;
    assert px * (2.0 * a) == n;
    assert 4.0 * Sq(a) * Sq(px) == n * n by { SquareOf(px, 2.0 * a, n, 4.0 * Sq(a), Sq(px), n * n); }
    var u, v := 2.0 * a * b + n, 2.0 * a * b - n;
    assert u == (a + b - c) * (a + b + c);
    assert v == (c - a + b) * (c + a - b);
    DifferenceOfSquares(2.0 * a * b, n, u, v, u * v, 4.0 * Sq(a) * Sq(b), n * n);
    Distribute4(Sq(a), Sq(b), Sq(px), py2);
  }

  lemma SquareOf(x: real, y: real, n: real, yy: real, xx: real, nn: real)
    requires x * y == n && yy == y * y && xx == x * x && nn == n * n
    ensures yy * xx == nn
  {}

  lemma DifferenceOfSquares(p: real, n: real, u: real, v: real, uv: real, pp: real, nn: real)
    requires u == p + n && v == p - n && uv == u * v && pp == p * p && nn == n * n
    ensures uv == pp - nn
  {}

  lemma Distribute4(a: real, b: real, x: real, y: real)
    requires y == b - x
    ensures 4.0 * a * y == 4.0 * a * b - 4.0 * a * x
  {}

  predicate StrictlyCloses(a: real, b: real, c: real) { a < b + c && b < a + c && c < a + b }

  lemma SignOfProduct(p: real, q: real, r: real, s: real, ps: real, qr: real, all: real)
    requires s > 0.0 && p + q > 0.0 && q + r > 0.0 && p + r > 0.0
    requires ps == p * s && qr == q * r && all == ps * qr
    ensures all >= 0.0 <==> p >= 0.0 && q >= 0.0 && r >= 0.0
    ensures all > 0.0 <==> p > 0.0 && q > 0.0 && r > 0.0
  {
    if p < 0.0 {
      ProductSign(-p, s, -ps);
      ProductSign(q, r, qr);
      ProductSign(-ps, qr, -all);
    } else if q < 0.0 || r < 0.0 {
      ProductSign(p, s, ps);
      if q < 0.0 { ProductSign(-q, r, -qr); } else { ProductSign(q, -r, -qr); }
      ProductSign(ps, -qr, -all);
    } else if p > 0.0 && q > 0.0 && r > 0.0 {
      ProductSign(p, s, ps);
      ProductSign(q, r, qr);
      ProductSign(ps, qr, all);
    }
  }

  /** The squared height of the plane node is not negative exactly when the three gauge
      distances close a triangle, and positive exactly when the triangle is not flat. */
  lemma HeightSign(a: real, b: real, c: real)
    requires a > 0.0 && b > 0.0 && c > 0.0
    ensures Sq(b) - Sq(RadicalX(a, b, c)) >= 0.0 <==> Closes(a, b, c)
    ensures Sq(b) - Sq(RadicalX(a, b, c)) > 0.0 <==> StrictlyCloses(a, b, c)
  {
    var px := RadicalX(a, b, c);
    var py2 := Sq(b) - Sq(px);
    var p, q, r, s := a + b - c, c - a + b, c + a - b, a + b + c;
    var ps, qr := p * s, q * r;
    Heron(a, b, c, px, py2);
    SignOfProduct(p, q, r, s, ps, qr, ps * qr);
    SqPositive(a);
    SignOfFactor(4.0 * Sq(a), py2, ps * qr);
  }

  lemma SignOfFactor(k: real, x: real, kx: real)
    requires k > 0.0 && kx == k * x
    ensures (kx >= 0.0 <==> x >= 0.0) && (kx > 0.0 <==> x > 0.0)
  {
    if x > 0.0 { ProductSign(k, x, kx); } else if x < 0.0 { ProductSign(k, -x, -kx); }
  }

  /** The seed keeps the three gauge distances exactly when they close a triangle; otherwise
      the plane node lands on the x axis and its distances are wrong. Its y is positive exactly
      when the triangle is not flat. */
  lemma GaugeKeepsDistances(d01: real, d02: real, d12: real, sqrt: real -> real)
    requires IsRoot(sqrt) && d01 > 0.0 && d02 > 0.0 && d12 > 0.0
    ensures var x, y := PlaneX(d01, d02, d12), PlaneY(d01, d02, d12, sqrt);
      && (Sq(x) + Sq(y) == Sq(d02) && Sq(x - d01) + Sq(y) == Sq(d12) <==> Closes(d01, d02, d12))
      && (y > 0.0 <==> StrictlyCloses(d01, d02, d12)) && (y != 0.0 ==> y > 0.0)
  {
    var x, y := PlaneX(d01, d02, d12), PlaneY(d01, d02, d12, sqrt);
    var py2 := Sq(d02) - Sq(x);
    HeightSign(d01, d02, d12);
    RadicalPoint(d01, 0.0, 1.0, d02, d12, d02, x, y);
    Heights(if py2 > 0.0 then py2 else 0.0, d02, sqrt);
    if py2 > 0.0 { RootIsPositive(py2, y); }
  }

  lemma RootIsPositive(a: real, y: real)
    requires a > 0.0 && y >= 0.0 && y * y == a
    ensures y > 0.0 && Sq(y) == a
  {}

  /** Distances 1, 3 and 1 do not close: the plane node is put at (4.5, 0, 0), not at distance 3. */
  lemma OpenTriangleExample(sqrt: real -> real)
    ensures !Closes(1.0, 3.0, 1.0) && PlaneX(1.0, 3.0, 1.0) == 4.5 && PlaneY(1.0, 3.0, 1.0, sqrt) == 0.0
  {
    assert Sq(3.0) == 9.0 && Sq(4.5) == 20.25;
  }

  // ---- The up node is above the plane of the other three ----

  lemma LevelAxes(p0: Vec, p1: Vec, p2: Vec, sqrt: real -> real)
    requires p0.z == p1.z == p2.z == 0.0 && PlaneFrame(p0, p1, p2, sqrt).Some?
    ensures var f := PlaneFrame(p0, p1, p2, sqrt).value; f.ex.z == 0.0 && f.ey.z == 0.0
  {}

  lemma LevelPoint(p0: Vec, f: Frame, x: real, y: real, z: real)
    requires p0.z == 0.0 && f.ex.z == 0.0 && f.ey.z == 0.0
    ensures PointAt(p0, f, x, y, z).z == z * f.ez.z
  {}

  lemma LevelCentres(p0: Vec, p1: Vec, p2: Vec, r0: real, r1: real, r2: real, sqrt: real -> real)
    requires p0.z == p1.z == p2.z == 0.0 && Trilaterate3(p0, p1, p2, r0, r1, r2, sqrt).Some?
    ensures var (a, b) := Trilaterate3(p0, p1, p2, r0, r1, r2, sqrt).value; a.z == -b.z
  {
    var f := PlaneFrame(p0, p1, p2, sqrt).value;
    LevelAxes(p0, p1, p2, sqrt);
    var x := RadicalX(f.d, r0, r1);
    var y := RadicalY(f.i, f.j, r0, r2, x);
    var z := Height(Sq(r0) - Sq(x) - Sq(y), r0, sqrt).value;
    LevelPoint(p0, f, x, y, z);
    LevelPoint(p0, f, x, y, -z);
  }

  ghost predicate Level(nodes: seq<NodeOut>) { forall k :: 0 <= k < |nodes| ==> nodes[k].at.z == 0.0 }

  /** In a 3D layout the up node is never below z = 0. */
  lemma UpIsAbove(es: seq<Edge>, nodes: seq<NodeOut>, up: nat, sqrt: real -> real)
    requires Level(nodes) && UpNode(es, nodes, up, sqrt).Some?
    ensures UpNode(es, nodes, up, sqrt).value.at.z >= 0.0
  {
    var nb := Neighbours(es, nodes, up, MAX_NODES);
    LevelCentres(nodes[nb[0].k].at, nodes[nb[1].k].at, nodes[nb[2].k].at, nb[0].d, nb[1].d, nb[2].d, sqrt);
  }

  // ---- The layout the gauge starts from ----

  /** The gauge nodes and no others are placed, at their defining coordinates. */
  lemma GaugeLayoutIs(es: seq<Edge>, n: nat, g: Gauge, sqrt: real -> real)
    requires GaugeValid(g, n) && GaugeLayout(es, n, g, sqrt).Some?
    ensures var d01, d02, d12 := EdgeLength(es, g.origin, g.xaxis), EdgeLength(es, g.origin, g.plane), EdgeLength(es, g.xaxis, g.plane);
      var nodes := GaugeLayout(es, n, g, sqrt).value;
      && d01 > 0.0 && d02 > 0.0 && d12 > 0.0
      && nodes[g.origin] == NodeOut(ORIGIN, Placed)
      && nodes[g.xaxis] == NodeOut(Vec(d01, 0.0, 0.0), Placed)
      && nodes[g.plane] == NodeOut(Vec(PlaneX(d01, d02, d12), PlaneY(d01, d02, d12, sqrt), 0.0), Placed)
      && (forall k :: 0 <= k < n ==> (if k in GaugeNodes(g) then nodes[k].state == Placed else nodes[k] == BLANK))
      && (g.dim == Dim3 ==> nodes[g.up].at.z >= 0.0)
      && (g.dim == Dim2 ==> Level(nodes))
  {
    var d01, d02, d12 := EdgeLength(es, g.origin, g.xaxis), EdgeLength(es, g.origin, g.plane), EdgeLength(es, g.xaxis, g.plane);
    var flat := FlatGauge(n, g, d01, d02, d12, sqrt);
    assert Level(flat);
    if g.dim == Dim3 { UpIsAbove(es, flat, g.up, sqrt); }
  }

  lemma PlacedLevel(es: seq<Edge>, nodes: seq<NodeOut>, k: nat, sqrt: real -> real)
    requires PlaceOf(es, nodes, Dim2, k, sqrt).Some?
    ensures PlaceOf(es, nodes, Dim2, k, sqrt).value.at.z == 0.0
  {}

  /** The whole seed: the gauge as defined, every other node explained by the turns of the greedy
      loop, which start from the gauge alone, and in 2D everything at z = 0. */
  lemma SeedExplained(es: seq<Edge>, n: nat, g: Gauge, sqrt: real -> real) returns (turns: seq<Turn>)
    requires GaugeValid(g, n) && SeedOf(es, n, g, sqrt).Some?
    ensures GaugeLayout(es, n, g, sqrt).Some?
    ensures var first, last := GaugeLayout(es, n, g, sqrt).value, SeedOf(es, n, g, sqrt).value;
      && Explains(es, first, {}, last, turns, g.dim, sqrt)
      && (forall u :: u in turns ==> u.k !in GaugeNodes(g))
      && (forall k :: 0 <= k < n ==> (IsPlaced(last[k]) <==> k in GaugeNodes(g) || Turn(k, true) in turns))
      && (g.dim == Dim2 ==> Level(last))
  {
    var first, last := GaugeLayout(es, n, g, sqrt).value, SeedOf(es, n, g, sqrt).value;
    GaugeLayoutIs(es, n, g, sqrt);
    turns := GreedyExplained(es, first, {}, g.dim, sqrt);
    forall k | 0 <= k < n && Turn(k, true) in turns ensures IsPlaced(last[k]) && (g.dim == Dim2 ==> last[k].at.z == 0.0) {
      var i :| 0 <= i < |turns| && turns[i] == Turn(k, true);
      assert TakenInTurn(es, first, {}, last, turns, i, g.dim, sqrt);
      if g.dim == Dim2 { PlacedLevel(es, Stage(first, last, turns, i), k, sqrt); }
    }
    forall u | u in turns ensures u.k !in GaugeNodes(g) { assert u.k in Open(first, {}); }
  }
}
