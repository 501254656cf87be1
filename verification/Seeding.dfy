/** Closed-form initial placement of a survey: the gauge by definition, then every other node
    from its placed neighbours, best-determined first. */
module Seeding {
  import opened Options
  import opened SurveyFit
  import opened SurveyEdges
  import opened Reals
  import T3 = Trilateration
  import T2 = PlanarTrilateration

  const BLANK: NodeOut := NodeOut(ORIGIN, Unplaced)

  predicate IsPlaced(n: NodeOut) { !n.state.Unplaced? }

  // ---- Lookups in the edge list ----

  predicate Joins(e: Edge, a: nat, b: nat) { (e.i == a && e.j == b) || (e.i == b && e.j == a) }

  /** The distance of the first edge that joins a and b; -1 when there is none. */
  function EdgeLength(es: seq<Edge>, a: nat, b: nat): real {
    if es == [] then -1.0 else if Joins(es[0], a, b) then es[0].d else EdgeLength(es[1..], a, b)
  }

  datatype Neighbour = Neighbour(k: nat, d: real)

  /** The placed node an edge leads to from n. */
  function PlacedEnd(e: Edge, nodes: seq<NodeOut>, n: nat): Option<nat> {
    if e.i != n && e.j != n then None
    else
      var other := if e.i == n then e.j else e.i;
      if other < |nodes| && IsPlaced(nodes[other]) then Some(other) else None
  }

  /** The edges from n to placed nodes, in list order, as many as the capacity allows. */
  function Neighbours(es: seq<Edge>, nodes: seq<NodeOut>, n: nat, cap: nat): (r: seq<Neighbour>)
    ensures |r| <= cap && forall x :: x in r ==> x.k < |nodes| && IsPlaced(nodes[x.k])
  {
    if es == [] || cap == 0 then []
    else match PlacedEnd(es[0], nodes, n)
      case Some(k) => [Neighbour(k, es[0].d)] + Neighbours(es[1..], nodes, n, cap - 1)
      case None => Neighbours(es[1..], nodes, n, cap)
  }

  function Needed(dim: Dim): nat { if dim == Dim2 then 2 else 3 }

  // ---- Placing one node ----

  /** Sum of the placed positions, and how many there are. */
  function PlacedSum(nodes: seq<NodeOut>): (Vec, nat) {
    if nodes == [] then (ORIGIN, 0)
    else
      var (sum, count) := PlacedSum(nodes[..|nodes| - 1]);
      var last := nodes[|nodes| - 1];
      if IsPlaced(last) then (T3.Add(sum, last.at), count + 1) else (sum, count)
  }

  function Centroid(nodes: seq<NodeOut>): Vec {
    var (sum, count) := PlacedSum(nodes);
    if count == 0 then sum else T3.Scale(1.0 / (count as real), sum)
  }

  function Flat(v: Vec): T2.Point { T2.Point(v.x, v.y) }

  function Lift(p: T2.Point): Vec { Vec(p.x, p.y, 0.0) }

  /** How far a candidate position disagrees with a further range. */
  function Misfit2(p: T2.Point, nb: Neighbour, nodes: seq<NodeOut>, sqrt: real -> real): real
    requires nb.k < |nodes|
  {
    Abs(sqrt(T2.PlaneDist2(p, Flat(nodes[nb.k].at))) - nb.d)
  }

  function Misfit3(p: Vec, nb: Neighbour, nodes: seq<NodeOut>, sqrt: real -> real): real
    requires nb.k < |nodes|
  {
    Abs(T3.Norm(T3.Sub(p, nodes[nb.k].at), sqrt) - nb.d)
  }

  /** In the plane: the intersection a third range prefers, or, guessing, the one on the side of the centroid. */
  function Place2(nb: seq<Neighbour>, nodes: seq<NodeOut>, sqrt: real -> real): Option<NodeOut>
    requires |nb| >= 2 && forall x :: x in nb ==> x.k < |nodes|
  {
    var p0, p1 := Flat(nodes[nb[0].k].at), Flat(nodes[nb[1].k].at);
    match T2.Trilaterate2(p0, p1, nb[0].d, nb[1].d, sqrt)
    case None => None
    case Some(ab) =>
      if |nb| >= 3 then
        Some(NodeOut(Lift(if Misfit2(ab.0, nb[2], nodes, sqrt) <= Misfit2(ab.1, nb[2], nodes, sqrt) then ab.0 else ab.1), Placed))
      else
        var c := Flat(Centroid(nodes));
        Some(NodeOut(Lift(if (T2.Area2(p0, p1, c) >= 0.0) == (T2.Area2(p0, p1, ab.0) >= 0.0) then ab.0 else ab.1), Ambiguous))
  }

  /** In space: the intersection a fourth range prefers, or, guessing, the one on the side of the centroid. */
  function Place3(nb: seq<Neighbour>, nodes: seq<NodeOut>, sqrt: real -> real): Option<NodeOut>
    requires |nb| >= 3 && forall x :: x in nb ==> x.k < |nodes|
  {
    var p0, p1, p2 := nodes[nb[0].k].at, nodes[nb[1].k].at, nodes[nb[2].k].at;
    match T3.Trilaterate3(p0, p1, p2, nb[0].d, nb[1].d, nb[2].d, sqrt)
    case None => None
    case Some(ab) =>
      if |nb| >= 4 then
        Some(NodeOut(if Misfit3(ab.0, nb[3], nodes, sqrt) <= Misfit3(ab.1, nb[3], nodes, sqrt) then ab.0 else ab.1, Placed))
      else
        var normal := T3.Cross(T3.Sub(p1, p0), T3.Sub(p2, p0));
        var cs, side := T3.Dot(T3.Sub(Centroid(nodes), p0), normal), T3.Dot(T3.Sub(ab.0, p0), normal);
        Some(NodeOut(if (cs >= 0.0) == (side >= 0.0) then ab.0 else ab.1, Ambiguous))
  }

  /** Where its placed neighbours put node n; None when they are too few or their ranges do not meet. */
  function PlaceOf(es: seq<Edge>, nodes: seq<NodeOut>, dim: Dim, n: nat, sqrt: real -> real): (r: Option<NodeOut>)
    ensures r.Some? ==> IsPlaced(r.value)
  {
    var nb := Neighbours(es, nodes, n, MAX_NODES);
    if |nb| < Needed(dim) then None
    else if dim == Dim2 then Place2(nb, nodes, sqrt)
    else Place3(nb, nodes, sqrt)
  }

  // ---- The greedy loop ----

  /** Nodes that still may be placed. */
  function Open(nodes: seq<NodeOut>, tried: set<nat>): set<nat> {
    set k | 0 <= k < |nodes| && !IsPlaced(nodes[k]) && k !in tried
  }

  function Degree(es: seq<Edge>, nodes: seq<NodeOut>, k: nat): nat { |Neighbours(es, nodes, k, MAX_NODES)| }

  /** Among the open nodes before k, the first with the most placed neighbours, if those are enough. */
  function Best(es: seq<Edge>, nodes: seq<NodeOut>, tried: set<nat>, need: nat, k: nat): (b: Option<nat>)
    requires k <= |nodes|
    ensures b.Some? ==>
      && b.value < k && b.value in Open(nodes, tried) && Degree(es, nodes, b.value) >= need
      && (forall j :: 0 <= j < k && j in Open(nodes, tried) ==> Degree(es, nodes, j) <= Degree(es, nodes, b.value))
      && (forall j :: 0 <= j < b.value && j in Open(nodes, tried) ==> Degree(es, nodes, j) < Degree(es, nodes, b.value))
    ensures b.None? ==> forall j :: 0 <= j < k && j in Open(nodes, tried) ==> Degree(es, nodes, j) < need || Degree(es, nodes, j) == 0
  {
    if k == 0 then None
    else
      var b := Best(es, nodes, tried, need, k - 1);
      var j := k - 1;
      if j !in Open(nodes, tried) then b
      else
        var c := Degree(es, nodes, j);
        if c >= need && c > (if b.Some? then Degree(es, nodes, b.value) else 0) then Some(j) else b
  }

  /** Places the best candidate again and again; one that cannot be placed is not tried again. */
  function Greedy(es: seq<Edge>, nodes: seq<NodeOut>, tried: set<nat>, dim: Dim, sqrt: real -> real): (r: seq<NodeOut>)
    ensures |r| == |nodes|
    decreases Open(nodes, tried)
  {
    match Best(es, nodes, tried, Needed(dim), |nodes|)
    case None => nodes
    case Some(b) =>
      match PlaceOf(es, nodes, dim, b, sqrt)
      case Some(out) =>
        assert b in Open(nodes, tried) && b !in Open(nodes[b := out], tried);
        Greedy(es, nodes[b := out], tried, dim, sqrt)
      case None =>
        assert b in Open(nodes, tried) && b !in Open(nodes, tried + {b});
        Greedy(es, nodes, tried + {b}, dim, sqrt)
  }

  // ---- What the greedy loop achieves ----

  /** One round: the node chosen, and whether its ranges met. */
  datatype Turn = Turn(k: nat, placed: bool)

  /** The layout after the first i turns, when it ends as last. */
  ghost function Stage(first: seq<NodeOut>, last: seq<NodeOut>, turns: seq<Turn>, i: nat): (r: seq<NodeOut>)
    requires |first| == |last| && i <= |turns|
    ensures |r| == |first|
  {
    seq(|first|, k requires 0 <= k < |first| => if Turn(k, true) in turns[..i] then last[k] else first[k])
  }

  /** The candidates given up in the first i turns. */
  ghost function GivenUp(tried: set<nat>, turns: seq<Turn>, i: nat): set<nat>
    requires i <= |turns|
  {
    if i == 0 then tried
    else if turns[i - 1].placed then GivenUp(tried, turns, i - 1)
    else GivenUp(tried, turns, i - 1) + {turns[i - 1].k}
  }

  /** The i-th turn took, of the nodes still open, the first with the most placed neighbours,
      and placed it where those put it or gave it up because their ranges do not meet. */
  ghost predicate TakenInTurn(es: seq<Edge>, first: seq<NodeOut>, tried: set<nat>, last: seq<NodeOut>, turns: seq<Turn>, i: nat, dim: Dim, sqrt: real -> real)
    requires |first| == |last| && i < |turns|
  {
    var at, gone, k := Stage(first, last, turns, i), GivenUp(tried, turns, i), turns[i].k;
    && k in Open(at, gone) && k < |last| && Degree(es, at, k) >= Needed(dim)
    && (forall j :: j in Open(at, gone) ==> Degree(es, at, j) <= Degree(es, at, k))
    && (forall j :: j in Open(at, gone) && j < k ==> Degree(es, at, j) < Degree(es, at, k))
    && PlaceOf(es, at, dim, k, sqrt) == if turns[i].placed then Some(last[k]) else None
  }

  /** The turns lead from the first layout to the last one, no node has two of them, and at the
      end no open node has enough placed neighbours. */
  ghost predicate Explains(es: seq<Edge>, first: seq<NodeOut>, tried: set<nat>, last: seq<NodeOut>, turns: seq<Turn>, dim: Dim, sqrt: real -> real) {
    && |first| == |last|
    && (forall k :: 0 <= k < |first| && Turn(k, true) !in turns ==> last[k] == first[k])
    && (forall i :: 0 <= i < |turns| ==> TakenInTurn(es, first, tried, last, turns, i, dim, sqrt))
    && (forall i, j :: 0 <= i < j < |turns| ==> turns[i].k != turns[j].k)
    && (forall k :: k in Open(last, GivenUp(tried, turns, |turns|)) ==> Degree(es, last, k) < Needed(dim))
  }

  lemma StageShift(first: seq<NodeOut>, last: seq<NodeOut>, t: Turn, rest: seq<Turn>, i: nat)
    requires |first| == |last| && t.k < |first| && i <= |rest|
    ensures Stage(first, last, [t] + rest, i + 1) == Stage(AfterTurn(first, last, t), last, rest, i)
  {
    assert ([t] + rest)[..i + 1] == [t] + rest[..i];
  }

  lemma {:induction false} GivenUpShift(tried: set<nat>, t: Turn, rest: seq<Turn>, i: nat)
    requires i <= |rest|
    ensures GivenUp(tried, [t] + rest, i + 1) == GivenUp(GoneAfter(tried, t), rest, i)
  {
    if i > 0 { GivenUpShift(tried, t, rest, i - 1); }
  }

  /** Where a turn leaves the layout, and the candidates given up. */
  function AfterTurn(first: seq<NodeOut>, last: seq<NodeOut>, t: Turn): seq<NodeOut>
    requires |first| == |last| && t.k < |first|
  {
    if t.placed then first[t.k := last[t.k]] else first
  }

  function GoneAfter(tried: set<nat>, t: Turn): set<nat> { if t.placed then tried else tried + {t.k} }

  lemma TurnShift(es: seq<Edge>, first: seq<NodeOut>, tried: set<nat>, last: seq<NodeOut>, t: Turn, rest: seq<Turn>,
                  next: seq<NodeOut>, gone: set<nat>, i: nat, dim: Dim, sqrt: real -> real)
    requires |first| == |last| && t.k < |first| && i < |rest| && next == AfterTurn(first, last, t) && gone == GoneAfter(tried, t)
    requires TakenInTurn(es, next, gone, last, rest, i, dim, sqrt)
    ensures TakenInTurn(es, first, tried, last, [t] + rest, i + 1, dim, sqrt)
  {
    StageShift(first, last, t, rest, i);
    GivenUpShift(tried, t, rest, i);
    SameTurn(es, next, gone, first, tried, last, rest, [t] + rest, i, i + 1, dim, sqrt);
  }

  /** A turn depends on the stage it is taken at and nothing else. */
  lemma SameTurn(es: seq<Edge>, f1: seq<NodeOut>, t1: set<nat>, f2: seq<NodeOut>, t2: set<nat>, last: seq<NodeOut>,
                 a: seq<Turn>, b: seq<Turn>, i: nat, j: nat, dim: Dim, sqrt: real -> real)
    requires |f1| == |f2| == |last| && i < |a| && j < |b| && a[i] == b[j]
    requires Stage(f1, last, a, i) == Stage(f2, last, b, j) && GivenUp(t1, a, i) == GivenUp(t2, b, j)
    requires TakenInTurn(es, f1, t1, last, a, i, dim, sqrt)
    ensures TakenInTurn(es, f2, t2, last, b, j, dim, sqrt)
  {}

  lemma FirstTurn(es: seq<Edge>, first: seq<NodeOut>, tried: set<nat>, last: seq<NodeOut>, t: Turn, rest: seq<Turn>, dim: Dim, sqrt: real -> real)
    requires |first| == |last| && Best(es, first, tried, Needed(dim), |first|) == Some(t.k)
    requires PlaceOf(es, first, dim, t.k, sqrt) == if t.placed then Some(last[t.k]) else None
    ensures TakenInTurn(es, first, tried, last, [t] + rest, 0, dim, sqrt)
  {
    assert Stage(first, last, [t] + rest, 0) == first;
    assert GivenUp(tried, [t] + rest, 0) == tried;
  }

  lemma AllTurns(es: seq<Edge>, first: seq<NodeOut>, tried: set<nat>, last: seq<NodeOut>, t: Turn, rest: seq<Turn>,
                 next: seq<NodeOut>, gone: set<nat>, dim: Dim, sqrt: real -> real)
    requires |first| == |last| && t.k < |first| && next == AfterTurn(first, last, t) && gone == GoneAfter(tried, t)
    requires TakenInTurn(es, first, tried, last, [t] + rest, 0, dim, sqrt)
    requires forall i :: 0 <= i < |rest| ==> TakenInTurn(es, next, gone, last, rest, i, dim, sqrt)
    ensures forall i :: 0 <= i < |[t] + rest| ==> TakenInTurn(es, first, tried, last, [t] + rest, i, dim, sqrt)
  {
    forall i | 0 <= i < |[t] + rest| ensures TakenInTurn(es, first, tried, last, [t] + rest, i, dim, sqrt) {
      if i > 0 { TurnShift(es, first, tried, last, t, rest, next, gone, i - 1, dim, sqrt); }
    }
  }

  lemma EachOnce(t: Turn, rest: seq<Turn>)
    requires forall u :: u in rest ==> u.k != t.k
    requires forall i, j :: 0 <= i < j < |rest| ==> rest[i].k != rest[j].k
    ensures forall i, j :: 0 <= i < j < |[t] + rest| ==> ([t] + rest)[i].k != ([t] + rest)[j].k
  {
    forall i, j | 0 <= i < j < |[t] + rest| ensures ([t] + rest)[i].k != ([t] + rest)[j].k { assert ([t] + rest)[j] in rest; }
  }

  /** The best candidate's turn, and then as explained, is explained. */
  lemma ExplainTurn(es: seq<Edge>, first: seq<NodeOut>, tried: set<nat>, last: seq<NodeOut>, t: Turn, rest: seq<Turn>, dim: Dim, sqrt: real -> real)
    requires |first| == |last| && Best(es, first, tried, Needed(dim), |first|) == Some(t.k)
    requires PlaceOf(es, first, dim, t.k, sqrt) == if t.placed then Some(last[t.k]) else None
    requires Explains(es, AfterTurn(first, last, t), GoneAfter(tried, t), last, rest, dim, sqrt)
    requires forall u :: u in rest ==> u.k != t.k
    ensures Explains(es, first, tried, last, [t] + rest, dim, sqrt)
  {
    FirstTurn(es, first, tried, last, t, rest, dim, sqrt);
    AllTurns(es, first, tried, last, t, rest, AfterTurn(first, last, t), GoneAfter(tried, t), dim, sqrt);
    EachOnce(t, rest);
    NoneLeft(es, tried, last, t, rest, dim);
    Unchanged(first, last, t, rest);
  }

  lemma NoneLeft(es: seq<Edge>, tried: set<nat>, last: seq<NodeOut>, t: Turn, rest: seq<Turn>, dim: Dim)
    requires forall k :: k in Open(last, GivenUp(GoneAfter(tried, t), rest, |rest|)) ==> Degree(es, last, k) < Needed(dim)
    ensures forall k :: k in Open(last, GivenUp(tried, [t] + rest, |[t] + rest|)) ==> Degree(es, last, k) < Needed(dim)
  {
    GivenUpShift(tried, t, rest, |rest|);
  }

  lemma Unchanged(first: seq<NodeOut>, last: seq<NodeOut>, t: Turn, rest: seq<Turn>)
    requires |first| == |last| && t.k < |first|
    requires forall k :: 0 <= k < |first| && Turn(k, true) !in rest ==> last[k] == AfterTurn(first, last, t)[k]
    ensures forall k :: 0 <= k < |first| && Turn(k, true) !in [t] + rest ==> last[k] == first[k]
  {}

  /** The loop ends, and its result is explained turn by turn. */
  lemma {:induction false} GreedyExplained(es: seq<Edge>, nodes: seq<NodeOut>, tried: set<nat>, dim: Dim, sqrt: real -> real) returns (turns: seq<Turn>)
    ensures Explains(es, nodes, tried, Greedy(es, nodes, tried, dim, sqrt), turns, dim, sqrt)
    ensures forall u :: u in turns ==> u.k in Open(nodes, tried)
    decreases Open(nodes, tried)
  {
    var last := Greedy(es, nodes, tried, dim, sqrt);
    match Best(es, nodes, tried, Needed(dim), |nodes|) {
      case None =>
        turns := [];
        assert GivenUp(tried, turns, 0) == tried;
        assert Needed(dim) > 0;
      case Some(b) =>
        match PlaceOf(es, nodes, dim, b, sqrt) {
          case Some(out) =>
            assert b in Open(nodes, tried) && b !in Open(nodes[b := out], tried);
            var rest := GreedyExplained(es, nodes[b := out], tried, dim, sqrt);
            turns := [Turn(b, true)] + rest;
            NotAgain(nodes[b := out], tried, b, rest);
            KeptOnceSet(es, nodes[b := out], tried, last, rest, b, dim, sqrt);
            ExplainTurn(es, nodes, tried, last, Turn(b, true), rest, dim, sqrt);
          case None =>
            assert b in Open(nodes, tried) && b !in Open(nodes, tried + {b});
            var rest := GreedyExplained(es, nodes, tried + {b}, dim, sqrt);
            turns := [Turn(b, false)] + rest;
            NotAgain(nodes, tried + {b}, b, rest);
            ExplainTurn(es, nodes, tried, last, Turn(b, false), rest, dim, sqrt);
        }
    }
  }

  lemma NotAgain(nodes: seq<NodeOut>, tried: set<nat>, b: nat, rest: seq<Turn>)
    requires b !in Open(nodes, tried) && forall u :: u in rest ==> u.k in Open(nodes, tried)
    ensures forall u :: u in rest ==> u.k != b
  {}

  lemma KeptOnceSet(es: seq<Edge>, first: seq<NodeOut>, tried: set<nat>, last: seq<NodeOut>, rest: seq<Turn>, b: nat, dim: Dim, sqrt: real -> real)
    requires Explains(es, first, tried, last, rest, dim, sqrt) && b < |first| && forall u :: u in rest ==> u.k != b
    ensures last[b] == first[b]
  {
    if Turn(b, true) in rest { assert false; }
  }

  // ---- The gauge ----

  predicate GaugeValid(g: Gauge, n: nat) {
    && (if g.dim == Dim2 then 3 else 4) <= n <= MAX_NODES
    && g.origin < n && g.xaxis < n && g.plane < n
    && g.origin != g.xaxis && g.origin != g.plane && g.xaxis != g.plane
    && (g.dim == Dim3 ==> g.up < n && g.up != g.origin && g.up != g.xaxis && g.up != g.plane)
  }

  function PlaneX(d01: real, d02: real, d12: real): real
    requires d01 != 0.0
  {
    T3.RadicalX(d01, d02, d12)
  }

  function PlaneY(d01: real, d02: real, d12: real, sqrt: real -> real): real
    requires d01 != 0.0
  {
    var py2 := T3.Sq(d02) - T3.Sq(PlaneX(d01, d02, d12));
    if py2 > 0.0 then sqrt(py2) else 0.0
  }

  /** origin at the origin, xaxis on +x, plane in z = 0 with y >= 0. */
  function FlatGauge(n: nat, g: Gauge, d01: real, d02: real, d12: real, sqrt: real -> real): (r: seq<NodeOut>)
    requires GaugeValid(g, n) && d01 != 0.0
    ensures |r| == n
  {
    seq(n, _ => BLANK)
      [g.origin := NodeOut(ORIGIN, Placed)]
      [g.xaxis := NodeOut(Vec(d01, 0.0, 0.0), Placed)]
      [g.plane := NodeOut(Vec(PlaneX(d01, d02, d12), PlaneY(d01, d02, d12, sqrt), 0.0), Placed)]
  }

  /** up: the higher of the two intersections of its first three ranges. */
  function UpNode(es: seq<Edge>, nodes: seq<NodeOut>, up: nat, sqrt: real -> real): Option<NodeOut> {
    var nb := Neighbours(es, nodes, up, MAX_NODES);
    if |nb| < 3 then None
    else match T3.Trilaterate3(nodes[nb[0].k].at, nodes[nb[1].k].at, nodes[nb[2].k].at, nb[0].d, nb[1].d, nb[2].d, sqrt)
      case None => None
      case Some(ab) => Some(NodeOut(if ab.0.z >= ab.1.z then ab.0 else ab.1, Placed))
  }

  function GaugeLayout(es: seq<Edge>, n: nat, g: Gauge, sqrt: real -> real): (r: Option<seq<NodeOut>>)
    requires GaugeValid(g, n)
    ensures r.Some? ==> |r.value| == n
  {
    var d01, d02, d12 := EdgeLength(es, g.origin, g.xaxis), EdgeLength(es, g.origin, g.plane), EdgeLength(es, g.xaxis, g.plane);
    if d01 <= 0.0 || d02 <= 0.0 || d12 <= 0.0 then None
    else
      var flat := FlatGauge(n, g, d01, d02, d12, sqrt);
      if g.dim == Dim2 then Some(flat)
      else match UpNode(es, flat, g.up, sqrt)
        case None => None
        case Some(up) => Some(flat[g.up := up])
  }

  /** The seeded layout; None when the gauge nodes lack the edges to place them. */
  function SeedOf(es: seq<Edge>, n: nat, g: Gauge, sqrt: real -> real): Option<seq<NodeOut>>
    requires GaugeValid(g, n)
  {
    match GaugeLayout(es, n, g, sqrt)
    case None => None
    case Some(nodes) => Some(Greedy(es, nodes, {}, g.dim, sqrt))
  }

  ghost function GaugeNodes(g: Gauge): set<nat> {
    {g.origin, g.xaxis, g.plane} + (if g.dim == Dim3 then {g.up} else {})
  }

  // ---- Distances that placement keeps ----

  /** A node placed in space is at its first three measured distances, up to a common excess
      of the squares, and exactly there when the spheres meet. */
  lemma PlacedAtRange3(es: seq<Edge>, nodes: seq<NodeOut>, n: nat, sqrt: real -> real) returns (excess: real)
    requires T3.IsRoot(sqrt) && PlaceOf(es, nodes, Dim3, n, sqrt).Some?
    ensures var nb := Neighbours(es, nodes, n, MAX_NODES);
      && |nb| >= 3
      && T3.Near(PlaceOf(es, nodes, Dim3, n, sqrt).value.at, nodes[nb[0].k].at, nodes[nb[1].k].at, nodes[nb[2].k].at,
                 nb[0].d, nb[1].d, nb[2].d, excess)
      && 0.0 <= excess && (excess > 0.0 ==> excess <= T3.Sq(0.1 * nb[0].d))
  {
    var nb := Neighbours(es, nodes, n, MAX_NODES);
    excess := T3.Trilaterate3Sound(nodes[nb[0].k].at, nodes[nb[1].k].at, nodes[nb[2].k].at, nb[0].d, nb[1].d, nb[2].d, sqrt);
  }

  lemma PlacedAtRange2(es: seq<Edge>, nodes: seq<NodeOut>, n: nat, sqrt: real -> real) returns (excess: real)
    requires T3.IsRoot(sqrt) && PlaceOf(es, nodes, Dim2, n, sqrt).Some?
    ensures var nb := Neighbours(es, nodes, n, MAX_NODES);
      var at := PlaceOf(es, nodes, Dim2, n, sqrt).value.at;
      && |nb| >= 2 && at.z == 0.0
      && T2.NearBoth(Flat(at), Flat(nodes[nb[0].k].at), Flat(nodes[nb[1].k].at), nb[0].d, nb[1].d, excess)
      && 0.0 <= excess && (excess > 0.0 ==> excess <= T3.Sq(0.1 * nb[0].d))
  {
    var nb := Neighbours(es, nodes, n, MAX_NODES);
    excess := T2.Trilaterate2Sound(Flat(nodes[nb[0].k].at), Flat(nodes[nb[1].k].at), nb[0].d, nb[1].d, sqrt);
  }
}
