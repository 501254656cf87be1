/** The layout under construction, updated in place: seeding it and counting what was placed. */
module SurveyLayout {
  import opened Options
  import opened SurveyFit
  import opened SurveyEdges
  import opened Seeding
  import T3 = Trilateration

  function PlacedSet(nodes: seq<NodeOut>): set<nat> { set k | 0 <= k < |nodes| && IsPlaced(nodes[k]) }

  function AmbiguousSet(nodes: seq<NodeOut>): set<nat> { set k | 0 <= k < |nodes| && nodes[k].state.Ambiguous? }

  lemma SetNodeCounts(nodes: seq<NodeOut>, n: nat, out: NodeOut)
    requires n < |nodes| && !IsPlaced(nodes[n]) && IsPlaced(out)
    ensures |PlacedSet(nodes[n := out])| == |PlacedSet(nodes)| + 1
    ensures |AmbiguousSet(nodes[n := out])| == |AmbiguousSet(nodes)| + (if out.state.Ambiguous? then 1 else 0)
  {
    assert PlacedSet(nodes[n := out]) == PlacedSet(nodes) + {n};
    assert AmbiguousSet(nodes[n := out]) == AmbiguousSet(nodes) + (if out.state.Ambiguous? then {n} else {});
  }

  method FindEdge(es: seq<Edge>, a: nat, b: nat) returns (d: real)
    ensures d == EdgeLength(es, a, b)
  {
    var k := 0;
    while k < |es|
      invariant k <= |es| && EdgeLength(es, a, b) == EdgeLength(es[k..], a, b)
    {
      if Joins(es[k], a, b) { return es[k].d; }
      k := k + 1;
    }
    return -1.0;
  }

  method ListNeighbours(es: seq<Edge>, nodes: seq<NodeOut>, n: nat, cap: nat) returns (nb: seq<Neighbour>)
    ensures nb == Neighbours(es, nodes, n, cap)
  {
    nb := [];
    var k := 0;
    while k < |es| && |nb| < cap
      invariant k <= |es| && |nb| <= cap
      invariant Neighbours(es, nodes, n, cap) == nb + Neighbours(es[k..], nodes, n, cap - |nb|)
    {
      var other := PlacedEnd(es[k], nodes, n);
      NeighboursStep(es, nodes, n, k, cap, nb);
      if other.Some? { nb := nb + [Neighbour(other.value, es[k].d)]; }
      k := k + 1;
    }
  }

  lemma NeighboursStep(es: seq<Edge>, nodes: seq<NodeOut>, n: nat, k: nat, cap: nat, nb: seq<Neighbour>)
    requires k < |es| && |nb| < cap
    ensures var next := match PlacedEnd(es[k], nodes, n) case Some(o) => nb + [Neighbour(o, es[k].d)] case None => nb;
      nb + Neighbours(es[k..], nodes, n, cap - |nb|) == next + Neighbours(es[k + 1..], nodes, n, cap - |next|)
  {
    assert es[k..][1..] == es[k + 1..];
  }

  /** The candidate the next round places. */
  method FindBest(es: seq<Edge>, nodes: seq<NodeOut>, tried: set<nat>, need: nat) returns (best: Option<nat>)
    ensures best == Best(es, nodes, tried, need, |nodes|)
  {
    best := None;
    var bestCount := 0;
    for n := 0 to |nodes|
      invariant best == Best(es, nodes, tried, need, n)
      invariant bestCount == if best.Some? then Degree(es, nodes, best.value) else 0
    {
      if !IsPlaced(nodes[n]) && n !in tried {
        var nb := ListNeighbours(es, nodes, n, MAX_NODES);
        if |nb| >= need && |nb| > bestCount { best, bestCount := Some(n), |nb|; }
      }
    }
  }

  datatype SolveCode = Ok | BadGauge | NoData

  class Layout {
    var nodes: seq<NodeOut>
    var nPlaced: nat
    var nAmbiguous: nat
    var dim: Dim
    var rms: real
    var worst: real

    ghost predicate Counted()
      reads this
    {
      nPlaced == |PlacedSet(nodes)| && nAmbiguous == |AmbiguousSet(nodes)|
    }

    function Value(): Fit
      reads this
    {
      Fit(nodes, nPlaced, nAmbiguous, dim, rms, worst)
    }

    constructor (n: nat, d: Dim)
      ensures nodes == seq(n, _ => BLANK) && dim == d && Counted()
    {
      nodes, nPlaced, nAmbiguous, dim, rms, worst := seq(n, _ => BLANK), 0, 0, d, 0.0, 0.0;
      new;
      assert PlacedSet(nodes) == {} && AmbiguousSet(nodes) == {};
    }

    method Clear(n: nat, d: Dim)
      modifies this
      ensures nodes == seq(n, _ => BLANK) && dim == d && Counted()
    {
      nodes, nPlaced, nAmbiguous, dim, rms, worst := seq(n, _ => BLANK), 0, 0, d, 0.0, 0.0;
      assert PlacedSet(nodes) == {} && AmbiguousSet(nodes) == {};
    }

    method SetNode(n: nat, out: NodeOut)
      requires n < |nodes| && !IsPlaced(nodes[n]) && IsPlaced(out)
      modifies this
      ensures nodes == old(nodes)[n := out] && dim == old(dim)
      ensures old(Counted()) ==> Counted()
    {
      SetNodeCounts(nodes, n, out);
      nodes := nodes[n := out];
      nPlaced := nPlaced + 1;
      if out.state.Ambiguous? { nAmbiguous := nAmbiguous + 1; }
    }

    method PlaceFromNeighbours(es: seq<Edge>, n: nat, sqrt: real -> real) returns (ok: bool)
      requires n < |nodes| && !IsPlaced(nodes[n])
      modifies this
      ensures ok <==> PlaceOf(es, old(nodes), dim, n, sqrt).Some?
      ensures nodes == (if ok then old(nodes)[n := PlaceOf(es, old(nodes), dim, n, sqrt).value] else old(nodes)) && dim == old(dim)
      ensures old(Counted()) ==> Counted()
    {
      var nb := ListNeighbours(es, nodes, n, MAX_NODES);
      if |nb| < Needed(dim) { return false; }
      var out := if dim == Dim2 then Place2(nb, nodes, sqrt) else Place3(nb, nodes, sqrt);
      if out.None? { return false; }
      SetNode(n, out.value);
      return true;
    }

    /** The three gauge nodes that fix the plane z = 0. */
    method PlaceFlat(g: Gauge, d01: real, d02: real, d12: real, sqrt: real -> real)
      requires GaugeValid(g, |nodes|) && nodes == seq(|nodes|, _ => BLANK) && Counted() && d01 > 0.0
      modifies this
      ensures nodes == FlatGauge(old(|nodes|), g, d01, d02, d12, sqrt) && dim == old(dim) && Counted()
      ensures g.dim == Dim3 ==> !IsPlaced(nodes[g.up])
    {
      SetNode(g.origin, NodeOut(ORIGIN, Placed));
      SetNode(g.xaxis, NodeOut(Vec(d01, 0.0, 0.0), Placed));
      var px := T3.RadicalX(d01, d02, d12);
      var py2 := T3.Sq(d02) - T3.Sq(px);
      var py := if py2 > 0.0 then sqrt(py2) else 0.0;
      SetNode(g.plane, NodeOut(Vec(px, py, 0.0), Placed));
    }

    /** The gauge nodes by definition; false when they lack the edges. */
    method PlaceGauge(es: seq<Edge>, g: Gauge, sqrt: real -> real) returns (ok: bool)
      requires GaugeValid(g, |nodes|) && nodes == seq(|nodes|, _ => BLANK) && Counted()
      modifies this
      ensures ok <==> GaugeLayout(es, old(|nodes|), g, sqrt).Some?
      ensures ok ==> nodes == GaugeLayout(es, old(|nodes|), g, sqrt).value
      ensures Counted() && dim == old(dim) && |nodes| == old(|nodes|)
    {
      var d01 := FindEdge(es, g.origin, g.xaxis);
      var d02 := FindEdge(es, g.origin, g.plane);
      var d12 := FindEdge(es, g.xaxis, g.plane);
      if d01 <= 0.0 || d02 <= 0.0 || d12 <= 0.0 { return false; }
      PlaceFlat(g, d01, d02, d12, sqrt);
      if g.dim == Dim3 {
        var nb := ListNeighbours(es, nodes, g.up, MAX_NODES);
        if |nb| < 3 { return false; }
        var up := UpNode(es, nodes, g.up, sqrt);
        if up.None? { return false; }
        SetNode(g.up, up.value);
      }
      return true;
    }

    /** Places what can be placed from placed neighbours, the best candidate first. */
    method PlaceRest(es: seq<Edge>, sqrt: real -> real)
      requires Counted()
      modifies this
      ensures nodes == Greedy(es, old(nodes), {}, dim, sqrt) && dim == old(dim) && Counted()
    {
      ghost var first := nodes;
      var tried := {};
      while true
        invariant dim == old(dim) && Counted()
        invariant Greedy(es, first, {}, dim, sqrt) == Greedy(es, nodes, tried, dim, sqrt)
        decreases Open(nodes, tried)
      {
        var best := FindBest(es, nodes, tried, Needed(dim));
        if best.None? { break; }
        ghost var before := nodes;
        var ok := PlaceFromNeighbours(es, best.value, sqrt);
        assert best.value in Open(before, tried);
        if ok {
          assert best.value !in Open(nodes, tried);
        } else {
          assert best.value !in Open(nodes, tried + {best.value});
          tried := tried + {best.value};
        }
      }
    }

    /** Initial placement of n nodes. */
    method Seed(es: seq<Edge>, n: nat, g: Gauge, sqrt: real -> real) returns (code: SolveCode)
      modifies this
      ensures code == BadGauge <==> !GaugeValid(g, n)
      ensures code == Ok <==> GaugeValid(g, n) && SeedOf(es, n, g, sqrt).Some?
      ensures code == Ok ==> nodes == SeedOf(es, n, g, sqrt).value && dim == g.dim && Counted()
    {
      if !GaugeValid(g, n) { return BadGauge; }
      Clear(n, g.dim);
      var placed := PlaceGauge(es, g, sqrt);
      if !placed { return NoData; }
      PlaceRest(es, sqrt);
      return Ok;
    }
  }
}
