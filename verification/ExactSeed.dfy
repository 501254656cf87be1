/** What the initial placement makes of exact ranges: it finds the anchors where they are. */
module ExactSeed {
  import opened Options
  import opened SurveyFit
  import opened SurveyEdges
  import opened Seeding
  import opened SeedingGauge
  import opened Recovery
  import T3 = Trilateration
  import T2 = PlanarTrilateration

  // ---- One node ----

  /** The point is at the measured distance of a placed neighbour. */
  ghost predicate AtRange(q: Vec, nodes: seq<NodeOut>, nb: Neighbour) {
    nb.k < |nodes| && nb.d >= 0.0 && T3.Dist2(q, nodes[nb.k].at) == T3.Sq(nb.d)
  }

  /** A fourth range tells: a node that is at the distances of its first four placed neighbours,
      which are in general position, is placed there. */
  lemma Place3Recovers(es: seq<Edge>, nodes: seq<NodeOut>, n: nat, q: Vec, sqrt: real -> real)
    requires T3.IsRoot(sqrt)
    requires var nb := Neighbours(es, nodes, n, MAX_NODES);
      && |nb| >= 4 && (forall k :: 0 <= k < 4 ==> AtRange(q, nodes, nb[k]))
      && Spanning(nodes[nb[0].k].at, nodes[nb[1].k].at, nodes[nb[2].k].at)
      && Volume(nodes[nb[0].k].at, nodes[nb[1].k].at, nodes[nb[2].k].at, nodes[nb[3].k].at) != 0.0
    ensures PlaceOf(es, nodes, Dim3, n, sqrt) == Some(NodeOut(q, Placed))
  {
    var nb := Neighbours(es, nodes, n, MAX_NODES);
    assert AtRange(q, nodes, nb[0]) && AtRange(q, nodes, nb[1]) && AtRange(q, nodes, nb[2]) && AtRange(q, nodes, nb[3]);
    FourthTells(nodes[nb[0].k].at, nodes[nb[1].k].at, nodes[nb[2].k].at, nodes[nb[3].k].at, nb[0].d, nb[1].d, nb[2].d, nb[3].d, sqrt, q);
  }

  /** So does a third range in the plane. */
  lemma Place2Recovers(es: seq<Edge>, nodes: seq<NodeOut>, n: nat, q: Vec, sqrt: real -> real)
    requires T3.IsRoot(sqrt) && q.z == 0.0
    requires var nb := Neighbours(es, nodes, n, MAX_NODES);
      && |nb| >= 3 && (forall k :: 0 <= k < 3 ==> AtRange(q, nodes, nb[k]) && nodes[nb[k].k].at.z == 0.0)
      && Distinct2(Flat(nodes[nb[0].k].at), Flat(nodes[nb[1].k].at))
      && T2.Area2(Flat(nodes[nb[0].k].at), Flat(nodes[nb[1].k].at), Flat(nodes[nb[2].k].at)) != 0.0
    ensures PlaceOf(es, nodes, Dim2, n, sqrt) == Some(NodeOut(q, Placed))
  {
    var nb := Neighbours(es, nodes, n, MAX_NODES);
    assert AtRange(q, nodes, nb[0]) && AtRange(q, nodes, nb[1]) && AtRange(q, nodes, nb[2]);
    FlatDistance(q, nodes[nb[0].k].at);
    FlatDistance(q, nodes[nb[1].k].at);
    FlatDistance(q, nodes[nb[2].k].at);
    ThirdTells(Flat(nodes[nb[0].k].at), Flat(nodes[nb[1].k].at), Flat(nodes[nb[2].k].at), nb[0].d, nb[1].d, nb[2].d, sqrt, Flat(q));
  }

  lemma FlatDistance(q: Vec, p: Vec)
    requires q.z == p.z == 0.0
    ensures T2.PlaneDist2(Flat(q), Flat(p)) == T3.Dist2(q, p) && Lift(Flat(q)) == q
  {}

  // ---- A guess ----

  /** How far the placed nodes lie over a plane, added up. */
  function HeightSum(nodes: seq<NodeOut>, p0: Vec, normal: Vec): real {
    if nodes == [] then 0.0
    else
      var last := nodes[|nodes| - 1];
      HeightSum(nodes[..|nodes| - 1], p0, normal) + if IsPlaced(last) then T3.Dot(T3.Sub(last.at, p0), normal) else 0.0
  }

  lemma DotSum(sum: Vec, at: Vec, p0: Vec, normal: Vec, k: real)
    ensures T3.Dot(T3.Sub(T3.Add(sum, at), T3.Scale(k + 1.0, p0)), normal)
      == T3.Dot(T3.Sub(sum, T3.Scale(k, p0)), normal) + T3.Dot(T3.Sub(at, p0), normal)
  {
    T3.DotSub(T3.Add(sum, at), T3.Scale(k + 1.0, p0), normal);
    T3.DotAdd(sum, at, normal);
    T3.DotScale(k + 1.0, p0, normal);
    T3.DotSub(sum, T3.Scale(k, p0), normal);
    T3.DotScale(k, p0, normal);
    T3.DotSub(at, p0, normal);
  }

  lemma {:induction false} SumOfHeights(nodes: seq<NodeOut>, p0: Vec, normal: Vec)
    ensures var (sum, count) := PlacedSum(nodes);
      T3.Dot(T3.Sub(sum, T3.Scale(count as real, p0)), normal) == HeightSum(nodes, p0, normal)
  {
    if nodes != [] {
      var front := nodes[..|nodes| - 1];
      SumOfHeights(front, p0, normal);
      var (sum, count) := PlacedSum(front);
      DotSum(sum, nodes[|nodes| - 1].at, p0, normal, count as real);
    }
  }

  lemma MeanHeight(sum: Vec, count: nat, p0: Vec, normal: Vec, c: Vec)
    requires count > 0 && c == T3.Scale(1.0 / (count as real), sum)
    ensures T3.Dot(T3.Sub(sum, T3.Scale(count as real, p0)), normal) == (count as real) * T3.Dot(T3.Sub(c, p0), normal)
  {
    var k := count as real;
    assert T3.Scale(k, c) == sum by { Unscaled(sum, k, c); }
    T3.DotSub(sum, T3.Scale(k, p0), normal);
    T3.DotScale(k, c, normal);
    T3.DotScale(k, p0, normal);
    T3.DotSub(c, p0, normal);
  }

  lemma Unscaled(sum: Vec, k: real, c: Vec)
    requires k > 0.0 && c == T3.Scale(1.0 / k, sum)
    ensures T3.Scale(k, c) == sum
  {
    assert k * (1.0 / k) == 1.0;
    assert k * ((1.0 / k) * sum.x) == sum.x && k * ((1.0 / k) * sum.y) == sum.y && k * ((1.0 / k) * sum.z) == sum.z;
  }

  lemma SignScaled(k: real, h: real, kh: real)
    requires k > 0.0 && kh == k * h
    ensures kh >= 0.0 <==> h >= 0.0
  {
    if h > 0.0 { T3.ProductSign(k, h, kh); }
    if h < 0.0 { T3.ProductSign(k, -h, -kh); }
  }

  /** The centroid is on the side of a plane on which the placed nodes lie on the whole. */
  lemma CentroidSide(nodes: seq<NodeOut>, p0: Vec, normal: Vec)
    requires PlacedSum(nodes).1 > 0
    ensures T3.Dot(T3.Sub(Centroid(nodes), p0), normal) >= 0.0 <==> HeightSum(nodes, p0, normal) >= 0.0
  {
    var (sum, count) := PlacedSum(nodes);
    SumOfHeights(nodes, p0, normal);
    MeanHeight(sum, count, p0, normal, Centroid(nodes));
    SignScaled(count as real, T3.Dot(T3.Sub(Centroid(nodes), p0), normal), HeightSum(nodes, p0, normal));
  }

  lemma {:induction false} SomePlaced(nodes: seq<NodeOut>, k: nat)
    requires k < |nodes| && IsPlaced(nodes[k])
    ensures PlacedSum(nodes).1 > 0
  {
    if k < |nodes| - 1 { SomePlaced(nodes[..|nodes| - 1], k); }
  }

  /** With exactly three neighbours that reach a common point, a node is placed as a guess: at
      their distances, and not on the other side of their plane than the placed nodes are on the
      whole. A true position strictly on that side is the one found. */
  lemma Place3Guesses(es: seq<Edge>, nodes: seq<NodeOut>, n: nat, q: Vec, sqrt: real -> real)
    requires T3.IsRoot(sqrt)
    requires var nb := Neighbours(es, nodes, n, MAX_NODES);
      && |nb| == 3 && (forall k :: 0 <= k < 3 ==> AtRange(q, nodes, nb[k]))
      && Spanning(nodes[nb[0].k].at, nodes[nb[1].k].at, nodes[nb[2].k].at)
    ensures PlaceOf(es, nodes, Dim3, n, sqrt).Some?
    ensures var nb, out := Neighbours(es, nodes, n, MAX_NODES), PlaceOf(es, nodes, Dim3, n, sqrt).value;
      var p0, p1, p2 := nodes[nb[0].k].at, nodes[nb[1].k].at, nodes[nb[2].k].at;
      var heights := HeightSum(nodes, p0, T3.Cross(T3.Sub(p1, p0), T3.Sub(p2, p0)));
      && out.state == Ambiguous
      && (forall k :: 0 <= k < 3 ==> AtRange(out.at, nodes, nb[k]))
      && (heights >= 0.0 ==> Volume(p0, p1, p2, out.at) >= 0.0) && (heights < 0.0 ==> Volume(p0, p1, p2, out.at) <= 0.0)
      && ((if heights >= 0.0 then Volume(p0, p1, p2, q) > 0.0 else Volume(p0, p1, p2, q) < 0.0) ==> out.at == q)
  {
    var nb := Neighbours(es, nodes, n, MAX_NODES);
    assert AtRange(q, nodes, nb[0]) && AtRange(q, nodes, nb[1]) && AtRange(q, nodes, nb[2]);
    assert nb[0] in nb;
    var p0, p1, p2 := nodes[nb[0].k].at, nodes[nb[1].k].at, nodes[nb[2].k].at;
    FrameIffSpanning(p0, p1, p2, sqrt);
    T3.Trilaterate3Complete(p0, p1, p2, nb[0].d, nb[1].d, nb[2].d, sqrt, q);
    var (a, b) := T3.Trilaterate3(p0, p1, p2, nb[0].d, nb[1].d, nb[2].d, sqrt).value;
    SidesOpposite(p0, p1, p2, nb[0].d, nb[1].d, nb[2].d, sqrt);
    var normal := T3.Cross(T3.Sub(p1, p0), T3.Sub(p2, p0));
    SomePlaced(nodes, nb[0].k);
    CentroidSide(nodes, p0, normal);
    SideTaken(a, b, T3.Dot(T3.Sub(Centroid(nodes), p0), normal), Volume(p0, p1, p2, a), Volume(p0, p1, p2, b));
  }

  /** The same sum in the plane: twice the signed areas over a line. */
  function AreaSum(nodes: seq<NodeOut>, p0: T2.Point, p1: T2.Point): real {
    if nodes == [] then 0.0
    else
      var last := nodes[|nodes| - 1];
      AreaSum(nodes[..|nodes| - 1], p0, p1) + if IsPlaced(last) then T2.Area2(p0, p1, Flat(last.at)) else 0.0
  }

  /** Twice the signed area over a line of a sum of k positions. */
  function AreaAbout(x: real, y: real, k: real, p0: T2.Point, p1: T2.Point): real {
    (p1.x - p0.x) * (y - k * p0.y) - (p1.y - p0.y) * (x - k * p0.x)
  }

  lemma AreaSplit(ux: real, uy: real, a: real, b: real, c: real, d: real)
    ensures ux * (a + c) - uy * (b + d) == (ux * a - uy * b) + (ux * c - uy * d)
  {}

  lemma AreaStep(x: real, y: real, k: real, at: T2.Point, p0: T2.Point, p1: T2.Point)
    ensures AreaAbout(x + at.x, y + at.y, k + 1.0, p0, p1) == AreaAbout(x, y, k, p0, p1) + T2.Area2(p0, p1, at)
  {
    assert (k + 1.0) * p0.y == k * p0.y + p0.y && (k + 1.0) * p0.x == k * p0.x + p0.x;
    AreaSplit(p1.x - p0.x, p1.y - p0.y, y - k * p0.y, x - k * p0.x, at.y - p0.y, at.x - p0.x);
  }

  lemma AreaOfNone(p0: T2.Point, p1: T2.Point)
    ensures AreaAbout(0.0, 0.0, 0.0, p0, p1) == 0.0
  {}

  lemma {:induction false} SumOfAreas(nodes: seq<NodeOut>, p0: T2.Point, p1: T2.Point)
    ensures var (sum, count) := PlacedSum(nodes); AreaAbout(sum.x, sum.y, count as real, p0, p1) == AreaSum(nodes, p0, p1)
  {
    if nodes == [] {
      AreaOfNone(p0, p1);
    } else {
      var front := nodes[..|nodes| - 1];
      SumOfAreas(front, p0, p1);
      var (sum, count) := PlacedSum(front);
      AreaStep(sum.x, sum.y, count as real, Flat(nodes[|nodes| - 1].at), p0, p1);
    }
  }

  lemma MeanArea(k: real, c: T2.Point, p0: T2.Point, p1: T2.Point)
    ensures AreaAbout(k * c.x, k * c.y, k, p0, p1) == k * T2.Area2(p0, p1, c)
  {
    var ux, uy, a, b := p1.x - p0.x, p1.y - p0.y, c.y - p0.y, c.x - p0.x;
    assert k * c.y - k * p0.y == k * a && k * c.x - k * p0.x == k * b;
    assert ux * (k * a) == k * (ux * a) && uy * (k * b) == k * (uy * b);
  }

  lemma CentroidSide2(nodes: seq<NodeOut>, p0: T2.Point, p1: T2.Point)
    requires PlacedSum(nodes).1 > 0
    ensures T2.Area2(p0, p1, Flat(Centroid(nodes))) >= 0.0 <==> AreaSum(nodes, p0, p1) >= 0.0
  {
    var (sum, count) := PlacedSum(nodes);
    var c, k := Centroid(nodes), count as real;
    SumOfAreas(nodes, p0, p1);
    Unscaled(sum, k, c);
    MeanArea(k, Flat(c), p0, p1);
    SignScaled(k, T2.Area2(p0, p1, Flat(c)), AreaSum(nodes, p0, p1));
  }

  /** With exactly two neighbours in the plane, likewise for the line through them. */
  lemma Place2Guesses(es: seq<Edge>, nodes: seq<NodeOut>, n: nat, q: Vec, sqrt: real -> real)
    requires T3.IsRoot(sqrt) && q.z == 0.0
    requires var nb := Neighbours(es, nodes, n, MAX_NODES);
      && |nb| == 2 && (forall k :: 0 <= k < 2 ==> AtRange(q, nodes, nb[k]) && nodes[nb[k].k].at.z == 0.0)
      && Distinct2(Flat(nodes[nb[0].k].at), Flat(nodes[nb[1].k].at))
    ensures PlaceOf(es, nodes, Dim2, n, sqrt).Some?
    ensures var nb, out := Neighbours(es, nodes, n, MAX_NODES), PlaceOf(es, nodes, Dim2, n, sqrt).value;
      var p0, p1 := Flat(nodes[nb[0].k].at), Flat(nodes[nb[1].k].at);
      && out.state == Ambiguous && out.at.z == 0.0
      && (forall k :: 0 <= k < 2 ==> AtRange(out.at, nodes, nb[k]))
      && (AreaSum(nodes, p0, p1) >= 0.0 ==> T2.Area2(p0, p1, Flat(out.at)) >= 0.0)
      && (AreaSum(nodes, p0, p1) < 0.0 ==> T2.Area2(p0, p1, Flat(out.at)) <= 0.0)
      && ((if AreaSum(nodes, p0, p1) >= 0.0 then T2.Area2(p0, p1, Flat(q)) > 0.0 else T2.Area2(p0, p1, Flat(q)) < 0.0) ==> out.at == q)
  {
    var nb := Neighbours(es, nodes, n, MAX_NODES);
    assert AtRange(q, nodes, nb[0]) && AtRange(q, nodes, nb[1]);
    assert nb[0] in nb;
    var p0, p1 := Flat(nodes[nb[0].k].at), Flat(nodes[nb[1].k].at);
    FlatDistance(q, nodes[nb[0].k].at);
    FlatDistance(q, nodes[nb[1].k].at);
    LineIffDistinct(p0, p1, sqrt);
    T2.Trilaterate2Complete(p0, p1, nb[0].d, nb[1].d, sqrt, Flat(q));
    var (a, b) := T2.Trilaterate2(p0, p1, nb[0].d, nb[1].d, sqrt).value;
    T2.Trilaterate2Mirrored(p0, p1, nb[0].d, nb[1].d, sqrt);
    SomePlaced(nodes, nb[0].k);
    CentroidSide2(nodes, p0, p1);
    SideTaken(a, b, T2.Area2(p0, p1, Flat(Centroid(nodes))), T2.Area2(p0, p1, a), T2.Area2(p0, p1, b));
    var out := PlaceOf(es, nodes, Dim2, n, sqrt).value.at;
    FlatDistance(out, nodes[nb[0].k].at);
    FlatDistance(out, nodes[nb[1].k].at);
  }

  // ---- Exact ranges ----

  /** Every edge has the length of the line between two different nodes of the layout. */
  ghost predicate Exact(es: seq<Edge>, truth: seq<Vec>) {
    forall e :: e in es ==>
      e.i < |truth| && e.j < |truth| && e.i != e.j && e.d >= 0.0 && T3.Dist2(truth[e.i], truth[e.j]) == T3.Sq(e.d)
  }

  /** No two edges join the same pair. */
  ghost predicate Simple(es: seq<Edge>) {
    forall a, b :: 0 <= a < b < |es| ==> !Joins(es[a], es[b].i, es[b].j)
  }

  /** Different nodes of the layout. */
  predicate Three(truth: seq<Vec>, i: nat, j: nat, k: nat) {
    i < |truth| && j < |truth| && k < |truth| && i != j && i != k && j != k
  }

  ghost predicate NoLine(truth: seq<Vec>, i: nat, j: nat, k: nat) {
    Three(truth, i, j, k) ==> Spanning(truth[i], truth[j], truth[k])
  }

  ghost predicate NoPlane(truth: seq<Vec>, i: nat, j: nat, k: nat, l: nat) {
    Three(truth, i, j, k) && l < |truth| && l != i && l != j && l != k ==> Volume(truth[i], truth[j], truth[k], truth[l]) != 0.0
  }

  ghost predicate Apart2(truth: seq<Vec>, i: nat, j: nat) {
    i < |truth| && j < |truth| && i != j ==> Distinct2(Flat(truth[i]), Flat(truth[j]))
  }

  ghost predicate NoLine2(truth: seq<Vec>, i: nat, j: nat, k: nat) {
    Three(truth, i, j, k) ==> T2.Area2(Flat(truth[i]), Flat(truth[j]), Flat(truth[k])) != 0.0
  }

  /** No three nodes are close to one line, and no four are in one plane; or in 2D, no two are
      close to each other and no three on one line. */
  ghost predicate General(truth: seq<Vec>, dim: Dim) {
    if dim == Dim3 then
      (forall i, j, k :: NoLine(truth, i, j, k)) && (forall i, j, k, l :: NoPlane(truth, i, j, k, l))
    else
      && (forall i :: 0 <= i < |truth| ==> truth[i].z == 0.0)
      && (forall i, j :: Apart2(truth, i, j)) && (forall i, j, k :: NoLine2(truth, i, j, k))
  }

  /** Every placed node is where it was. */
  ghost predicate Right(nodes: seq<NodeOut>, truth: seq<Vec>) {
    |nodes| == |truth| && forall k :: 0 <= k < |nodes| && IsPlaced(nodes[k]) ==> nodes[k].at == truth[k]
  }

  /** A neighbour comes from an edge that joins it to the node. */
  lemma {:induction false} NeighbourEdge(es: seq<Edge>, nodes: seq<NodeOut>, n: nat, cap: nat, x: Neighbour)
    requires x in Neighbours(es, nodes, n, cap)
    ensures exists e :: e in es && Joins(e, n, x.k) && e.d == x.d
    decreases |es|
  {
    var e := es[0];
    match PlacedEnd(e, nodes, n) {
      case Some(k) =>
        if x == Neighbour(k, e.d) { assert e in es && Joins(e, n, x.k); }
        else {
          NeighbourEdge(es[1..], nodes, n, cap - 1, x);
          var y :| y in es[1..] && Joins(y, n, x.k) && y.d == x.d;
          assert y in es;
        }
      case None =>
        NeighbourEdge(es[1..], nodes, n, cap, x);
        var y :| y in es[1..] && Joins(y, n, x.k) && y.d == x.d;
        assert y in es;
    }
  }

  lemma SimpleRest(es: seq<Edge>)
    requires Simple(es) && es != []
    ensures Simple(es[1..])
  {
    forall a, b | 0 <= a < b < |es[1..]| ensures !Joins(es[1..][a], es[1..][b].i, es[1..][b].j) {
      assert !Joins(es[a + 1], es[b + 1].i, es[b + 1].j);
    }
  }

  ghost predicate AllDiffer(nb: seq<Neighbour>) { forall a, b :: 0 <= a < b < |nb| ==> nb[a].k != nb[b].k }

  lemma OneMore(x: Neighbour, rest: seq<Neighbour>)
    requires AllDiffer(rest) && forall b :: 0 <= b < |rest| ==> rest[b].k != x.k
    ensures AllDiffer([x] + rest)
  {
    var nb := [x] + rest;
    forall a, b | 0 <= a < b < |nb| ensures nb[a].k != nb[b].k {
      assert nb[b] == rest[b - 1];
      if a > 0 { assert nb[a] == rest[a - 1]; }
    }
  }

  lemma {:induction false} NeighboursDiffer(es: seq<Edge>, nodes: seq<NodeOut>, n: nat, cap: nat)
    requires Simple(es)
    ensures AllDiffer(Neighbours(es, nodes, n, cap))
    decreases |es|
  {
    if es != [] && cap > 0 {
      var e := es[0];
      SimpleRest(es);
      match PlacedEnd(e, nodes, n) {
        case Some(k) =>
          NeighboursDiffer(es[1..], nodes, n, cap - 1);
          var rest := Neighbours(es[1..], nodes, n, cap - 1);
          assert Neighbours(es, nodes, n, cap) == [Neighbour(k, e.d)] + rest;
          forall b | 0 <= b < |rest| ensures rest[b].k != k {
            NeighbourEdge(es[1..], nodes, n, cap - 1, rest[b]);
            var y :| y in es[1..] && Joins(y, n, rest[b].k) && y.d == rest[b].d;
            var at :| 0 <= at < |es[1..]| && es[1..][at] == y;
            assert es[at + 1] == y && !Joins(es[0], y.i, y.j);
          }
          OneMore(Neighbour(k, e.d), rest);
        case None =>
          NeighboursDiffer(es[1..], nodes, n, cap);
          assert Neighbours(es, nodes, n, cap) == Neighbours(es[1..], nodes, n, cap);
      }
    }
  }

  /** In a layout that is right so far, the true position of a node is at all its ranges, and its
      neighbours are different nodes. */
  lemma TruthAtRange(es: seq<Edge>, nodes: seq<NodeOut>, n: nat, truth: seq<Vec>)
    requires Exact(es, truth) && Simple(es) && Right(nodes, truth) && n < |truth|
    ensures var nb := Neighbours(es, nodes, n, MAX_NODES);
      && (forall k :: 0 <= k < |nb| ==> AtRange(truth[n], nodes, nb[k]) && nb[k].k != n && nodes[nb[k].k].at == truth[nb[k].k])
      && AllDiffer(nb)
  {
    var nb := Neighbours(es, nodes, n, MAX_NODES);
    NeighboursDiffer(es, nodes, n, MAX_NODES);
    forall k | 0 <= k < |nb| ensures AtRange(truth[n], nodes, nb[k]) && nb[k].k != n && nodes[nb[k].k].at == truth[nb[k].k] {
      assert nb[k] in nb;
      NeighbourEdge(es, nodes, n, MAX_NODES, nb[k]);
      var e :| e in es && Joins(e, n, nb[k].k) && e.d == nb[k].d;
      DistanceSymmetric(truth[e.i], truth[e.j]);
    }
  }

  lemma DistanceSymmetric(p: Vec, q: Vec)
    ensures T3.Dist2(p, q) == T3.Dist2(q, p)
  {
    assert (p.x - q.x) * (p.x - q.x) == (q.x - p.x) * (q.x - p.x);
    assert (p.y - q.y) * (p.y - q.y) == (q.y - p.y) * (q.y - p.y);
    assert (p.z - q.z) * (p.z - q.z) == (q.z - p.z) * (q.z - p.z);
  }

  /** A candidate with a range to spare is placed where it was; one with just enough is placed. */
  lemma TurnIsRight(es: seq<Edge>, nodes: seq<NodeOut>, dim: Dim, n: nat, truth: seq<Vec>, sqrt: real -> real)
    requires T3.IsRoot(sqrt) && Exact(es, truth) && Simple(es) && General(truth, dim) && Right(nodes, truth) && n < |truth|
    requires Degree(es, nodes, n) >= Needed(dim)
    ensures PlaceOf(es, nodes, dim, n, sqrt).Some?
    ensures var out := PlaceOf(es, nodes, dim, n, sqrt).value;
      if Degree(es, nodes, n) > Needed(dim) then out == NodeOut(truth[n], Placed) else out.state == Ambiguous
  {
    var nb := Neighbours(es, nodes, n, MAX_NODES);
    TruthAtRange(es, nodes, n, truth);
    assert forall k :: 0 <= k < |nb| ==> nb[k] in nb;
    if dim == Dim3 {
      assert NoLine(truth, nb[0].k, nb[1].k, nb[2].k);
      if |nb| > 3 {
        assert NoPlane(truth, nb[0].k, nb[1].k, nb[2].k, nb[3].k);
        Place3Recovers(es, nodes, n, truth[n], sqrt);
      } else {
        Place3Guesses(es, nodes, n, truth[n], sqrt);
      }
    } else {
      assert Apart2(truth, nb[0].k, nb[1].k);
      if |nb| > 2 {
        assert NoLine2(truth, nb[0].k, nb[1].k, nb[2].k);
        Place2Recovers(es, nodes, n, truth[n], sqrt);
      } else {
        Place2Guesses(es, nodes, n, truth[n], sqrt);
      }
    }
  }

  lemma {:induction false} GreedyKeeps(es: seq<Edge>, nodes: seq<NodeOut>, tried: set<nat>, dim: Dim, sqrt: real -> real, k: nat)
    requires k < |nodes| && IsPlaced(nodes[k])
    ensures Greedy(es, nodes, tried, dim, sqrt)[k] == nodes[k]
    decreases Open(nodes, tried)
  {
    match Best(es, nodes, tried, Needed(dim), |nodes|) {
      case None =>
      case Some(b) =>
        match PlaceOf(es, nodes, dim, b, sqrt) {
          case Some(out) =>
            assert b in Open(nodes, tried) && b !in Open(nodes[b := out], tried);
            GreedyKeeps(es, nodes[b := out], tried, dim, sqrt, k);
          case None =>
            assert b in Open(nodes, tried) && b !in Open(nodes, tried + {b});
            GreedyKeeps(es, nodes, tried + {b}, dim, sqrt, k);
        }
    }
  }

  /** Every node that had to be guessed was guessed right. */
  ghost predicate GuessesRight(nodes: seq<NodeOut>, truth: seq<Vec>)
    requires |nodes| == |truth|
  {
    forall k :: 0 <= k < |nodes| && nodes[k].state == Ambiguous ==> nodes[k].at == truth[k]
  }

  /** The loop keeps a layout right, as long as its guesses are. */
  lemma {:induction false} GreedyIsRight(es: seq<Edge>, nodes: seq<NodeOut>, tried: set<nat>, dim: Dim, truth: seq<Vec>, sqrt: real -> real)
    requires T3.IsRoot(sqrt) && Exact(es, truth) && Simple(es) && General(truth, dim) && Right(nodes, truth)
    requires GuessesRight(Greedy(es, nodes, tried, dim, sqrt), truth)
    ensures Right(Greedy(es, nodes, tried, dim, sqrt), truth)
    ensures var last := Greedy(es, nodes, tried, dim, sqrt); forall k :: k in Open(last, tried) ==> Degree(es, last, k) < Needed(dim)
    decreases Open(nodes, tried)
  {
    match Best(es, nodes, tried, Needed(dim), |nodes|) {
      case None =>
      case Some(b) =>
        TurnIsRight(es, nodes, dim, b, truth, sqrt);
        var out := PlaceOf(es, nodes, dim, b, sqrt).value;
        assert b in Open(nodes, tried) && b !in Open(nodes[b := out], tried);
        GreedyKeeps(es, nodes[b := out], tried, dim, sqrt, b);
        assert Greedy(es, nodes, tried, dim, sqrt)[b] == out;
        GreedyIsRight(es, nodes[b := out], tried, dim, truth, sqrt);
    }
  }

  // ---- The gauge ----

  lemma {:induction false} EdgeLengthFrom(es: seq<Edge>, a: nat, b: nat)
    requires EdgeLength(es, a, b) > 0.0
    ensures exists e :: e in es && Joins(e, a, b) && e.d == EdgeLength(es, a, b)
  {
    if Joins(es[0], a, b) {
      assert es[0] in es;
    } else {
      EdgeLengthFrom(es[1..], a, b);
      var e :| e in es[1..] && Joins(e, a, b) && e.d == EdgeLength(es[1..], a, b);
      assert e in es;
    }
  }

  lemma LengthIsDistance(es: seq<Edge>, truth: seq<Vec>, a: nat, b: nat)
    requires Exact(es, truth) && a < |truth| && b < |truth| && EdgeLength(es, a, b) > 0.0
    ensures T3.Dist2(truth[a], truth[b]) == T3.Sq(EdgeLength(es, a, b))
  {
    EdgeLengthFrom(es, a, b);
    var e :| e in es && Joins(e, a, b) && e.d == EdgeLength(es, a, b);
    DistanceSymmetric(truth[e.i], truth[e.j]);
  }

  /** The layout is given in the gauge's own frame. */
  ghost predicate InFrame(truth: seq<Vec>, g: Gauge)
    requires GaugeValid(g, |truth|)
  {
    && truth[g.origin] == ORIGIN
    && truth[g.xaxis].x > 0.0 && truth[g.xaxis].y == 0.0 && truth[g.xaxis].z == 0.0
    && truth[g.plane].y >= 0.0 && truth[g.plane].z == 0.0
    && (g.dim == Dim3 ==> truth[g.up].z > 0.0)
  }

  lemma PlaneIs(d01: real, d02: real, d12: real, x: real, y: real, sqrt: real -> real)
    requires T3.IsRoot(sqrt) && d01 > 0.0 && y >= 0.0
    requires T3.Sq(d02) == T3.Sq(x) + T3.Sq(y) && T3.Sq(d12) == T3.Sq(x - d01) + T3.Sq(y)
    ensures PlaneX(d01, d02, d12) == x && PlaneY(d01, d02, d12, sqrt) == y
  {
    T3.RadicalAlong(d01, d02, d12, x);
    T3.SqPositive(y);
    RootIs(T3.Sq(y), sqrt, y);
  }

  lemma FlatDistances(o: Vec, x: Vec, p: Vec)
    requires o == ORIGIN && x.y == 0.0 && x.z == 0.0 && p.z == 0.0
    ensures T3.Dist2(o, x) == T3.Sq(x.x) && T3.Dist2(o, p) == T3.Sq(p.x) + T3.Sq(p.y) && T3.Dist2(x, p) == T3.Sq(p.x - x.x) + T3.Sq(p.y)
  {
    assert (x.x - p.x) * (x.x - p.x) == (p.x - x.x) * (p.x - x.x);
  }

  lemma PositiveRoot(a: real, b: real)
    requires a > 0.0 && b > 0.0 && T3.Sq(a) == T3.Sq(b)
    ensures a == b
  {
    SquaresOrdered(a, b);
    SquaresOrdered(b, a);
  }

  /** The three gauge nodes of the plane are put where they are. */
  lemma FlatGaugeIsRight(es: seq<Edge>, g: Gauge, truth: seq<Vec>, sqrt: real -> real)
    requires T3.IsRoot(sqrt) && GaugeValid(g, |truth|) && Exact(es, truth) && InFrame(truth, g)
    requires EdgeLength(es, g.origin, g.xaxis) > 0.0 && EdgeLength(es, g.origin, g.plane) > 0.0 && EdgeLength(es, g.xaxis, g.plane) > 0.0
    ensures Right(FlatGauge(|truth|, g, EdgeLength(es, g.origin, g.xaxis), EdgeLength(es, g.origin, g.plane), EdgeLength(es, g.xaxis, g.plane), sqrt), truth)
  {
    var d01, d02, d12 := EdgeLength(es, g.origin, g.xaxis), EdgeLength(es, g.origin, g.plane), EdgeLength(es, g.xaxis, g.plane);
    LengthIsDistance(es, truth, g.origin, g.xaxis);
    LengthIsDistance(es, truth, g.origin, g.plane);
    LengthIsDistance(es, truth, g.xaxis, g.plane);
    FlatDistances(truth[g.origin], truth[g.xaxis], truth[g.plane]);
    PositiveRoot(d01, truth[g.xaxis].x);
    PlaneIs(d01, d02, d12, truth[g.plane].x, truth[g.plane].y, sqrt);
  }

  lemma UpIsRight(es: seq<Edge>, flat: seq<NodeOut>, up: nat, truth: seq<Vec>, sqrt: real -> real)
    requires T3.IsRoot(sqrt) && Exact(es, truth) && Simple(es) && General(truth, Dim3) && Right(flat, truth) && up < |truth|
    requires (forall k :: 0 <= k < |flat| ==> flat[k].at.z == 0.0) && truth[up].z > 0.0 && UpNode(es, flat, up, sqrt).Some?
    ensures UpNode(es, flat, up, sqrt).value == NodeOut(truth[up], Placed)
  {
    var nb := Neighbours(es, flat, up, MAX_NODES);
    TruthAtRange(es, flat, up, truth);
    assert AtRange(truth[up], flat, nb[0]) && AtRange(truth[up], flat, nb[1]) && AtRange(truth[up], flat, nb[2]);
    assert nb[0] in nb && nb[1] in nb && nb[2] in nb;
    assert NoLine(truth, nb[0].k, nb[1].k, nb[2].k);
    var p0, p1, p2 := flat[nb[0].k].at, flat[nb[1].k].at, flat[nb[2].k].at;
    FrameIffSpanning(p0, p1, p2, sqrt);
    T3.Trilaterate3Complete(p0, p1, p2, nb[0].d, nb[1].d, nb[2].d, sqrt, truth[up]);
    LevelCentres(p0, p1, p2, nb[0].d, nb[1].d, nb[2].d, sqrt);
  }

  lemma GaugeIsRight(es: seq<Edge>, g: Gauge, truth: seq<Vec>, sqrt: real -> real)
    requires T3.IsRoot(sqrt) && GaugeValid(g, |truth|) && Exact(es, truth) && Simple(es) && General(truth, g.dim) && InFrame(truth, g)
    requires GaugeLayout(es, |truth|, g, sqrt).Some?
    ensures Right(GaugeLayout(es, |truth|, g, sqrt).value, truth)
  {
    var flat := LayoutIs(es, |truth|, g, sqrt);
    FlatGaugeIsRight(es, g, truth, sqrt);
    if g.dim == Dim3 { UpIsRight(es, flat, g.up, truth, sqrt); }
  }

  lemma LayoutIs(es: seq<Edge>, n: nat, g: Gauge, sqrt: real -> real) returns (flat: seq<NodeOut>)
    requires GaugeValid(g, n) && GaugeLayout(es, n, g, sqrt).Some?
    ensures var d01, d02, d12 := EdgeLength(es, g.origin, g.xaxis), EdgeLength(es, g.origin, g.plane), EdgeLength(es, g.xaxis, g.plane);
      d01 > 0.0 && d02 > 0.0 && d12 > 0.0 && flat == FlatGauge(n, g, d01, d02, d12, sqrt)
    ensures |flat| == n && forall k :: 0 <= k < n ==> flat[k].at.z == 0.0
    ensures g.dim == Dim2 ==> GaugeLayout(es, n, g, sqrt).value == flat
    ensures g.dim == Dim3 ==> UpNode(es, flat, g.up, sqrt).Some? && GaugeLayout(es, n, g, sqrt).value == flat[g.up := UpNode(es, flat, g.up, sqrt).value]
  {
    flat := FlatGauge(n, g, EdgeLength(es, g.origin, g.xaxis), EdgeLength(es, g.origin, g.plane), EdgeLength(es, g.xaxis, g.plane), sqrt);
  }

  /** From exact ranges of a layout in general position, given in the gauge's frame, the whole seed
      puts every node where it is, as long as the nodes it had to guess are; and it leaves out
      only nodes with too few ranges to the others. */
  lemma SeedIsRight(es: seq<Edge>, g: Gauge, truth: seq<Vec>, sqrt: real -> real)
    requires T3.IsRoot(sqrt) && GaugeValid(g, |truth|) && Exact(es, truth) && Simple(es) && General(truth, g.dim) && InFrame(truth, g)
    requires SeedOf(es, |truth|, g, sqrt).Some?
    requires var seed := SeedOf(es, |truth|, g, sqrt).value; |seed| == |truth| && GuessesRight(seed, truth)
    ensures var seed := SeedOf(es, |truth|, g, sqrt).value;
      Right(seed, truth) && forall k :: 0 <= k < |seed| && !IsPlaced(seed[k]) ==> Degree(es, seed, k) < Needed(g.dim)
  {
    GaugeIsRight(es, g, truth, sqrt);
    var first := GaugeLayout(es, |truth|, g, sqrt).value;
    SeedIsGreedy(es, |truth|, g, sqrt);
    GreedyIsRight(es, first, {}, g.dim, truth, sqrt);
    NoneOpen(es, Greedy(es, first, {}, g.dim, sqrt), g.dim);
  }

  lemma SeedIsGreedy(es: seq<Edge>, n: nat, g: Gauge, sqrt: real -> real)
    requires GaugeValid(g, n) && SeedOf(es, n, g, sqrt).Some?
    ensures GaugeLayout(es, n, g, sqrt).Some? && SeedOf(es, n, g, sqrt).value == Greedy(es, GaugeLayout(es, n, g, sqrt).value, {}, g.dim, sqrt)
  {}

  lemma NoneOpen(es: seq<Edge>, seed: seq<NodeOut>, dim: Dim)
    requires forall k :: k in Open(seed, {}) ==> Degree(es, seed, k) < Needed(dim)
    ensures forall k :: 0 <= k < |seed| && !IsPlaced(seed[k]) ==> Degree(es, seed, k) < Needed(dim)
  {
    forall k | 0 <= k < |seed| && !IsPlaced(seed[k]) ensures Degree(es, seed, k) < Needed(dim) { assert k in Open(seed, {}); }
  }

  /** Distances are found as they are. */
  lemma DistanceFound(p: Vec, q: Vec, d: real, sqrt: real -> real)
    requires T3.IsRoot(sqrt) && d >= 0.0 && T3.Dist2(p, q) == T3.Sq(d)
    ensures T3.Norm(T3.Sub(p, q), sqrt) == d
  {
    DistanceIs(p, q, d, sqrt);
  }
}
