/** The cost the refinement lowers, in terms of the measurements it came from: merging them into
    edges changes it by a constant. */
module TableCost {
  import opened Options
  import opened SurveyFit
  import opened SurveyTable
  import opened SurveyEdges
  import opened Seeding
  import opened Refinement
  import T3 = Trilateration

  // ---- One edge ----

  lemma SquaredQuotient(a: real, s: real)
    requires s > 0.0
    ensures Sq(a / s) * (s * s) == a * a
  {
    var q := a / s;
    assert q * s == a;
    assert (q * q) * (s * s) == (q * s) * (q * s);
  }

  /** What an edge costs, times its variance, is the square of its misfit; deviations under a tenth
      of a millimetre count as that. */
  lemma EdgeCostIs(e: Edge, nodes: seq<NodeOut>, sqrt: real -> real)
    requires UsableEdge(e, nodes)
    ensures var miss := T3.Norm(T3.Sub(nodes[e.i].at, nodes[e.j].at), sqrt) - e.d;
      && (e.sd >= 0.0001 ==> EdgeCost(e, nodes, sqrt) * (e.sd * e.sd) == miss * miss)
      && (e.sd < 0.0001 ==> EdgeCost(e, nodes, sqrt) * 0.00000001 == miss * miss)
  {
    SquaredQuotient(Residual(e, nodes, sqrt), SdFloor(e));
  }

  lemma SameByVariance(c: real, d: real, v: real)
    requires v > 0.0 && c * v == d * v
    ensures c == d
  {
    assert (c - d) * v == 0.0;
  }

  lemma MisfitByVariance(x: real, d: real, sd: real)
    requires sd > 0.0
    ensures Misfit(x, d, sd) * (sd * sd) == (x - d) * (x - d)
  {
    PositiveProduct(sd, sd);
    MisfitOver(Weight(sd), sd * sd, (x - d) * (x - d), Misfit(x, d, sd));
  }

  lemma MisfitOver(w: real, v: real, mm: real, m: real)
    requires v > 0.0 && w == 1.0 / v && m == w * mm
    ensures m * v == mm
  {
    assert w * v == 1.0;
    InverseCancels(w, v, mm);
  }

  lemma InverseCancels(w: real, v: real, mm: real)
    requires w * v == 1.0
    ensures (w * mm) * v == mm
  {
    assert (w * mm) * v == mm * (w * v);
  }

  /** For a deviation above that floor the cost of an edge is its misfit, as the table has it. */
  lemma EdgeCostIsMisfit(e: Edge, nodes: seq<NodeOut>, sqrt: real -> real)
    requires UsableEdge(e, nodes) && e.sd >= 0.0001
    ensures EdgeCost(e, nodes, sqrt) == Misfit(T3.Norm(Span(e, nodes), sqrt), e.d, e.sd)
  {
    EdgeCostIs(e, nodes, sqrt);
    MisfitByVariance(T3.Norm(Span(e, nodes), sqrt), e.d, e.sd);
    PositiveProduct(e.sd, e.sd);
    SameByVariance(EdgeCost(e, nodes, sqrt), Misfit(T3.Norm(Span(e, nodes), sqrt), e.d, e.sd), e.sd * e.sd);
  }

  // ---- Edges are never below the floor ----

  lemma SquareAtMostOne(p: real)
    requires p * p <= 1.0
    ensures p <= 1.0
  {}

  lemma InverseAtLeast(sd: real, root: real, bound: real)
    requires root >= 0.0 && sd * root == 1.0 && root * bound <= 1.0
    ensures sd >= bound
  {
    assert root != 0.0;
    if sd < bound {
      DifferenceTimes(bound, sd, root);
      PositiveProduct(bound - sd, root);
    }
  }

  lemma DifferenceTimes(a: real, b: real, c: real)
    ensures (a - b) * c == a * c - b * c
  {}

  lemma RootBelow(w: real, root: real, sd: real, bound: real)
    requires root >= 0.0 && root * root == w && sd * root == 1.0 && w * (bound * bound) <= 1.0
    ensures sd >= bound
  {
    var p, v := root * bound, bound * bound;
    SquareOfProduct(root, bound, p, p * p, w, v);
    SquareAtMostOne(p);
    InverseAtLeast(sd, root, bound);
  }

  lemma InverseAtMost(w: real, v: real, bound: real, least: real)
    requires w * v == 1.0 && v >= least > 0.0 && bound * least == 1.0 && w > 0.0
    ensures w <= bound
  {
    assert w * (v - least) >= 0.0;
    assert (bound - w) * least == 1.0 - w * least;
  }

  lemma WeightAtMost(sd: real)
    requires sd >= 0.001
    ensures Weight(sd) <= 1000000.0
  {
    PositiveProduct(sd, sd);
    var v := sd * sd;
    assert v >= 0.000001 by { assert (sd - 0.001) * (sd + 0.001) >= 0.0; }
    assert Weight(sd) * v == 1.0;
    InverseAtMost(Weight(sd), v, 1000000.0, 0.000001);
  }

  /** Every edge of a table has a deviation above a tenth of a millimetre. */
  lemma EdgeAboveFloor(i: nat, j: nat, f: Option<Meas>, r: Option<Meas>, sqrt: real -> real)
    requires T3.IsRoot(sqrt) && EdgeOf(i, j, f, r, sqrt).Some?
    ensures EdgeOf(i, j, f, r, sqrt).value.sd >= 0.0001
  {
    if f.Some? && r.Some? {
      var w := Weight(FlooredSd(f.value)) + Weight(FlooredSd(r.value));
      WeightAtMost(FlooredSd(f.value));
      WeightAtMost(FlooredSd(r.value));
      var sd := TwoWay(f.value, r.value, sqrt).1;
      assert 0.0001 * 0.0001 == 0.00000001;
      RootBelow(w, sqrt(w), sd, 0.0001);
    }
  }

  // ---- The sum over the measurements ----

  /** The squared misfit of a distance x to one measurement, in units of its own deviation or a
      multiple of that. */
  function Miss(x: real, m: Meas, times: real): real
    requires m.sd >= 1 && times > 0.0
  {
    var mean, sd := m.mean as real / 1000.0, m.sd as real / 1000.0;
    Sq((x - mean) / (times * sd))
  }

  /** What a distance x between two anchors costs: both directions if both were measured, or the
      one there is at twice its deviation. */
  function PairMiss(x: real, f: Option<Meas>, r: Option<Meas>): real
    requires (f.Some? ==> f.value.sd >= 1) && (r.Some? ==> r.value.sd >= 1)
  {
    match (f, r)
    case (Some(m), Some(w)) => Miss(x, m, 1.0) + Miss(x, w, 1.0)
    case (Some(m), None) => Miss(x, m, 2.0)
    case (None, Some(m)) => Miss(x, m, 2.0)
    case (None, None) => 0.0
  }

  /** Every deviation is at least the millimetre below which the code does not go. */
  ghost predicate Clear(t: Contents) { forall m :: m in t.meas ==> m.sd >= 1 }

  function Apart(nodes: seq<NodeOut>, i: nat, j: nat, sqrt: real -> real): real
    requires i < |nodes| && j < |nodes|
  {
    T3.Norm(T3.Sub(nodes[i].at, nodes[j].at), sqrt)
  }

  /** The misfits of all measurements between placed anchors, over the pairs from (i, j) on. */
  ghost function MissFrom(t: Contents, minOk: nat, nodes: seq<NodeOut>, i: nat, j: nat, sqrt: real -> real): real
    requires Clear(t) && |nodes| == |t.peers|
    decreases |nodes| - i, |nodes| - j
  {
    if i >= |nodes| then 0.0
    else if j >= |nodes| then MissFrom(t, minOk, nodes, i + 1, i + 2, sqrt)
    else
      (if IsPlaced(nodes[i]) && IsPlaced(nodes[j])
       then PairMiss(Apart(nodes, i, j, sqrt), FindMeas(t.meas, i, j, minOk), FindMeas(t.meas, j, i, minOk)) else 0.0)
      + MissFrom(t, minOk, nodes, i, j + 1, sqrt)
  }

  ghost function TableMiss(t: Contents, minOk: nat, nodes: seq<NodeOut>, sqrt: real -> real): real
    requires Clear(t) && |nodes| == |t.peers|
  {
    MissFrom(t, minOk, nodes, 0, 1, sqrt)
  }

  lemma MissIsMisfit(x: real, m: Meas, times: real, sd: real)
    requires m.sd >= 1 && times > 0.0 && sd == times * (m.sd as real / 1000.0) && sd > 0.0
    ensures Miss(x, m, times) == Misfit(x, Metres(m.mean), sd)
  {
    var miss := x - Metres(m.mean);
    SquaredQuotient(miss, sd);
    MisfitByVariance(x, Metres(m.mean), sd);
    PositiveProduct(sd, sd);
    SameByVariance(Miss(x, m, times), Misfit(x, Metres(m.mean), sd), sd * sd);
  }

  /** What merging the two directions of a pair takes off its cost, at every distance. */
  ghost function Merged(f: Option<Meas>, r: Option<Meas>, sqrt: real -> real): real
    requires T3.IsRoot(sqrt)
  {
    if f.Some? && r.Some? then
      var d := TwoWay(f.value, r.value, sqrt).0;
      Misfit(d, Metres(f.value.mean), FlooredSd(f.value)) + Misfit(d, Metres(r.value.mean), FlooredSd(r.value))
    else 0.0
  }

  /** The edge of a pair costs what its measurements do, less that. */
  lemma PairCost(nodes: seq<NodeOut>, i: nat, j: nat, f: Option<Meas>, r: Option<Meas>, sqrt: real -> real)
    requires T3.IsRoot(sqrt) && i < j < |nodes| && IsPlaced(nodes[i]) && IsPlaced(nodes[j])
    requires (f.Some? ==> f.value.sd >= 1) && (r.Some? ==> r.value.sd >= 1) && EdgeOf(i, j, f, r, sqrt).Some?
    ensures EdgeCost(EdgeOf(i, j, f, r, sqrt).value, nodes, sqrt) + Merged(f, r, sqrt) == PairMiss(Apart(nodes, i, j, sqrt), f, r)
  {
    var e, x := EdgeOf(i, j, f, r, sqrt).value, Apart(nodes, i, j, sqrt);
    EdgeAboveFloor(i, j, f, r, sqrt);
    EdgeCostIsMisfit(e, nodes, sqrt);
    match (f, r) {
      case (Some(m), Some(w)) =>
        MergeKeepsMisfit(m, w, sqrt, x);
        MissIsMisfit(x, m, 1.0, FlooredSd(m));
        MissIsMisfit(x, w, 1.0, FlooredSd(w));
      case (Some(m), None) => MissIsMisfit(x, m, 2.0, FlooredSd(m) * 2.0);
      case (None, Some(m)) => MissIsMisfit(x, m, 2.0, FlooredSd(m) * 2.0);
    }
  }

  lemma {:induction false} CostConcat(a: seq<Edge>, b: seq<Edge>, nodes: seq<NodeOut>, sqrt: real -> real)
    ensures Cost(a + b, nodes, sqrt) == Cost(a, nodes, sqrt) + Cost(b, nodes, sqrt)
    decreases |b|
  {
    if b == [] {
      assert a + b == a;
    } else {
      var c := b[..|b| - 1];
      assert (a + b)[..|a + b| - 1] == a + c;
      CostConcat(a, c, nodes, sqrt);
    }
  }

  /** The constant, over the pairs from (i, j) on. */
  ghost function MergedFrom(t: Contents, minOk: nat, nodes: seq<NodeOut>, i: nat, j: nat, sqrt: real -> real): real
    requires T3.IsRoot(sqrt)
    decreases |nodes| - i, |nodes| - j
  {
    if i >= |nodes| then 0.0
    else if j >= |nodes| then MergedFrom(t, minOk, nodes, i + 1, i + 2, sqrt)
    else
      (if IsPlaced(nodes[i]) && IsPlaced(nodes[j]) then Merged(FindMeas(t.meas, i, j, minOk), FindMeas(t.meas, j, i, minOk), sqrt) else 0.0)
      + MergedFrom(t, minOk, nodes, i, j + 1, sqrt)
  }

  lemma {:induction false} SameMerged(t: Contents, minOk: nat, a: seq<NodeOut>, b: seq<NodeOut>, i: nat, j: nat, sqrt: real -> real)
    requires T3.IsRoot(sqrt) && |a| == |b| && forall k :: 0 <= k < |a| ==> (IsPlaced(a[k]) <==> IsPlaced(b[k]))
    ensures MergedFrom(t, minOk, a, i, j, sqrt) == MergedFrom(t, minOk, b, i, j, sqrt)
    decreases |a| - i, |a| - j
  {
    if i < |a| { if j < |a| { SameMerged(t, minOk, a, b, i, j + 1, sqrt); } else { SameMerged(t, minOk, a, b, i + 1, i + 2, sqrt); } }
  }

  lemma OneEdgeCost(e: Edge, nodes: seq<NodeOut>, sqrt: real -> real)
    ensures Cost([e], nodes, sqrt) == EdgeCost(e, nodes, sqrt)
  {
    assert [e][..0] == [];
  }

  lemma PairStep(t: Contents, minOk: nat, nodes: seq<NodeOut>, i: nat, j: nat, sqrt: real -> real)
    requires T3.IsRoot(sqrt) && Clear(t) && |nodes| == |t.peers| && i < j < |nodes|
    ensures var f, r := FindMeas(t.meas, i, j, minOk), FindMeas(t.meas, j, i, minOk);
      Cost(Listed(EdgeOf(i, j, f, r, sqrt)), nodes, sqrt) + (if IsPlaced(nodes[i]) && IsPlaced(nodes[j]) then Merged(f, r, sqrt) else 0.0)
      == if IsPlaced(nodes[i]) && IsPlaced(nodes[j]) then PairMiss(Apart(nodes, i, j, sqrt), f, r) else 0.0
  {
    var f, r := FindMeas(t.meas, i, j, minOk), FindMeas(t.meas, j, i, minOk);
    var e := EdgeOf(i, j, f, r, sqrt);
    if e.Some? {
      OneEdgeCost(e.value, nodes, sqrt);
      if IsPlaced(nodes[i]) && IsPlaced(nodes[j]) { PairCost(nodes, i, j, f, r, sqrt); }
    }
  }

  /** From the pair (i, j) on, the edges cost what the measurements do, less the constant. */
  ghost predicate Accounted(t: Contents, minOk: nat, nodes: seq<NodeOut>, i: nat, j: nat, sqrt: real -> real, es: seq<Edge>)
    requires T3.IsRoot(sqrt) && Clear(t) && |nodes| == |t.peers|
  {
    Cost(es, nodes, sqrt) + MergedFrom(t, minOk, nodes, i, j, sqrt) == MissFrom(t, minOk, nodes, i, j, sqrt)
  }

  /** One pair in front of the rest. */
  lemma {:induction false} CostStep(t: Contents, minOk: nat, nodes: seq<NodeOut>, i: nat, j: nat, sqrt: real -> real, pairs: PairTable, rest: seq<Edge>)
    requires T3.IsRoot(sqrt) && Clear(t) && |nodes| == |t.peers| && i < j < |nodes| && pairs == PairEdges(t, minOk, MergeWith(sqrt))
    requires Accounted(t, minOk, nodes, i, j + 1, sqrt, rest)
    ensures Accounted(t, minOk, nodes, i, j, sqrt, Listed(pairs(i, j)) + rest)
  {
    PairEdgesAre(t, i, j, minOk, sqrt);
    PairStep(t, minOk, nodes, i, j, sqrt);
    CostConcat(Listed(pairs(i, j)), rest, nodes, sqrt);
  }

  lemma RowCost(t: Contents, minOk: nat, nodes: seq<NodeOut>, i: nat, j: nat, sqrt: real -> real, es: seq<Edge>)
    requires T3.IsRoot(sqrt) && Clear(t) && |nodes| == |t.peers| && i < |nodes| <= j && Accounted(t, minOk, nodes, i + 1, i + 2, sqrt, es)
    ensures Accounted(t, minOk, nodes, i, j, sqrt, es)
  {}

  lemma {:induction false} CostFrom(t: Contents, minOk: nat, nodes: seq<NodeOut>, i: nat, j: nat, sqrt: real -> real, pairs: PairTable)
    requires T3.IsRoot(sqrt) && Clear(t) && |nodes| == |t.peers| && i < j && pairs == PairEdges(t, minOk, MergeWith(sqrt))
    ensures Accounted(t, minOk, nodes, i, j, sqrt, EdgesFrom(|nodes|, i, j, pairs))
    decreases |nodes| - i, |nodes| - j
  {
    if i < |nodes| {
      if j < |nodes| {
        CostFrom(t, minOk, nodes, i, j + 1, sqrt, pairs);
        EdgesStep(|nodes|, i, j, pairs);
        CostStep(t, minOk, nodes, i, j, sqrt, pairs, EdgesFrom(|nodes|, i, j + 1, pairs));
      } else {
        CostFrom(t, minOk, nodes, i + 1, i + 2, sqrt, pairs);
        RowCost(t, minOk, nodes, i, j, sqrt, EdgesFrom(|nodes|, i + 1, i + 2, pairs));
      }
    }
  }

  /** The cost the refinement lowers and the sum over the measurements of their squared misfits,
      each in units of its own deviation, differ by the same amount at any two layouts of the
      same placed anchors: lowering the one is lowering the other. */
  lemma CostIsTableMiss(t: Contents, minOk: nat, a: seq<NodeOut>, b: seq<NodeOut>, sqrt: real -> real)
    requires T3.IsRoot(sqrt) && Clear(t) && |a| == |b| == |t.peers|
    requires forall k :: 0 <= k < |a| ==> (IsPlaced(a[k]) <==> IsPlaced(b[k]))
    ensures Cost(Edges(t, minOk, sqrt), a, sqrt) - Cost(Edges(t, minOk, sqrt), b, sqrt)
      == TableMiss(t, minOk, a, sqrt) - TableMiss(t, minOk, b, sqrt)
  {
    var pairs := PairEdges(t, minOk, MergeWith(sqrt));
    CostFrom(t, minOk, a, 0, 1, sqrt, pairs);
    CostFrom(t, minOk, b, 0, 1, sqrt, pairs);
    SameMerged(t, minOk, a, b, 0, 1, sqrt);
  }
}
