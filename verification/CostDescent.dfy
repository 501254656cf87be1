/** The assembled right-hand side really is the direction in which the cost falls: moving a
    layout along any step changes the cost by no more than the step's product with it says,
    plus the squared stretch of the edges. */
module CostDescent {
  import opened SurveyFit
  import opened SurveyEdges
  import opened ParameterMap
  import opened Refinement
  import DS = DampedSystem
  import LS = LinearSolver
  import T3 = Trilateration

  // ---- One edge, in plain numbers ----

  lemma NonNegativeTimes(a: real, b: real)
    requires a >= 0.0 && b >= 0.0
    ensures a * b >= 0.0
  {}

  lemma NonNegative(g: real, l: real)
    requires l > 0.0 && g * l >= 0.0
    ensures g >= 0.0
  {
    if g < 0.0 { T3.ProductSign(-g, l, -g * l); }
  }

  lemma SquaresOrder(a: real, b: real)
    requires a * a <= b * b && b >= 0.0
    ensures a <= b
  {
    if a > b { T3.ProductSign(a - b, a + b, (a - b) * (a + b)); }
  }

  lemma Rearrange(a: real, b: real)
    ensures (a * b) * (a * b) == (a * a) * (b * b)
  {}

  /** With squared lengths ll and nn and inner product q, q is at most the product of the lengths. */
  lemma InnerBound(l: real, n: real, ll: real, nn: real, q: real)
    requires l >= 0.0 && n >= 0.0 && l * l == ll && n * n == nn && q * q <= ll * nn
    ensures q <= l * n
  {
    Rearrange(l, n);
    NonNegativeTimes(l, n);
    SquaresOrder(q, l * n);
  }

  /** l is the old length, n the new one, r the first-order change of the length. */
  lemma Majorised(l: real, n: real, d: real, r: real, p: real, hh: real)
    requires l > 0.0 && d >= 0.0 && r * l == p && n * n == l * l + 2.0 * p + hh && l * l + p <= l * n
    ensures (n - d) * (n - d) <= (l - d) * (l - d) + 2.0 * ((l - d) * r) + hh
  {
    var gap := n - l - r;
    assert gap * l >= 0.0 by { assert gap * l == l * n - l * l - p; }
    NonNegative(gap, l);
    assert (n - d) * (n - d) == n * n - 2.0 * (d * n) + d * d;
    assert (l - d) * (l - d) == l * l - 2.0 * (d * l) + d * d;
    assert (l - d) * r == r * l - d * r;
    assert d * n == d * gap + d * l + d * r;
    NonNegativeTimes(d, gap);
  }

  /** How far the squared misfit of an edge can rise when its vector changes: ll, nn and hh are
      the squared lengths of the vector before, after, and of the change; p is the inner product
      of the vector with the change. */
  lemma MisfitBound(l: real, n: real, d: real, r: real, a: real, b: real, ll: real, nn: real, hh: real, p: real)
    requires a == n - d && b == l - d && l > 0.0 && n >= 0.0 && d >= 0.0 && l * l == ll && n * n == nn
    requires r * l == p && nn == ll + 2.0 * p + hh && (ll + p) * (ll + p) <= ll * nn
    ensures Sq(a) <= Sq(b) + 2.0 * (b * r) + hh
  {
    InnerBound(l, n, ll, nn, ll + p);
    Majorised(l, n, d, r, p, hh);
  }

  lemma LengthOfSum(v: Vec, h: Vec)
    ensures T3.Dot(T3.Add(v, h), T3.Add(v, h)) == T3.Dot(v, v) + 2.0 * T3.Dot(v, h) + T3.Dot(h, h)
  {}

  lemma InnerWithSum(v: Vec, h: Vec)
    ensures T3.Dot(v, T3.Add(v, h)) == T3.Dot(v, v) + T3.Dot(v, h)
  {}

  lemma SquareIsNonNegative(a: real)
    ensures a * a >= 0.0
  {
    T3.SqPositive(a);
  }

  lemma FromLagrange(a1: real, a2: real, a3: real, b1: real, b2: real, b3: real)
    requires (a2 * b3 - a3 * b2) * (a2 * b3 - a3 * b2) + (a3 * b1 - a1 * b3) * (a3 * b1 - a1 * b3)
      + (a1 * b2 - a2 * b1) * (a1 * b2 - a2 * b1) >= 0.0
    ensures (a1 * b1 + a2 * b2 + a3 * b3) * (a1 * b1 + a2 * b2 + a3 * b3)
      <= (a1 * a1 + a2 * a2 + a3 * a3) * (b1 * b1 + b2 * b2 + b3 * b3)
  {}

  lemma InnerSquares(a1: real, a2: real, a3: real, b1: real, b2: real, b3: real)
    ensures (a1 * b1 + a2 * b2 + a3 * b3) * (a1 * b1 + a2 * b2 + a3 * b3)
      <= (a1 * a1 + a2 * a2 + a3 * a3) * (b1 * b1 + b2 * b2 + b3 * b3)
  {
    SquareIsNonNegative(a2 * b3 - a3 * b2);
    SquareIsNonNegative(a3 * b1 - a1 * b3);
    SquareIsNonNegative(a1 * b2 - a2 * b1);
    FromLagrange(a1, a2, a3, b1, b2, b3);
  }

  lemma Named(a1: real, a2: real, a3: real, b1: real, b2: real, b3: real, vv: real, uu: real, vu: real)
    requires vv == a1 * a1 + a2 * a2 + a3 * a3 && uu == b1 * b1 + b2 * b2 + b3 * b3 && vu == a1 * b1 + a2 * b2 + a3 * b3
    ensures vu * vu <= vv * uu
  {
    InnerSquares(a1, a2, a3, b1, b2, b3);
  }

  lemma CauchySchwarz(v: Vec, u: Vec, vv: real, uu: real, vu: real)
    requires vv == T3.Dot(v, v) && uu == T3.Dot(u, u) && vu == T3.Dot(v, u)
    ensures vu * vu <= vv * uu
  {
    Named(v.x, v.y, v.z, u.x, u.y, u.z, vv, uu, vu);
  }

  lemma RootOf(v: Vec, sqrt: real -> real, l: real, ll: real)
    requires T3.IsRoot(sqrt) && l == T3.Norm(v, sqrt) && ll == T3.Dot(v, v)
    ensures l >= 0.0 && l * l == ll
  {
    T3.SquaresArePositive(v);
  }

  /** The misfit bound for an edge's vector v, its change h and a measured distance d. */
  lemma VectorMisfit(v: Vec, h: Vec, d: real, l: real, n: real, r: real, a: real, b: real, hh: real, sqrt: real -> real)
    requires T3.IsRoot(sqrt) && l == T3.Norm(v, sqrt) > 0.0 && n == T3.Norm(T3.Add(v, h), sqrt) && d >= 0.0
    requires r * l == T3.Dot(v, h) && a == n - d && b == l - d && hh == T3.Dot(h, h)
    ensures Sq(a) <= Sq(b) + 2.0 * (b * r) + hh
  {
    var u := T3.Add(v, h);
    var ll, nn, p := T3.Dot(v, v), T3.Dot(u, u), T3.Dot(v, h);
    LengthOfSum(v, h);
    InnerWithSum(v, h);
    CauchySchwarz(v, u, ll, nn, ll + p);
    RootOf(v, sqrt, l, ll);
    RootOf(u, sqrt, n, nn);
    MisfitBound(l, n, d, r, a, b, ll, nn, hh, p);
  }

  // ---- One edge of a layout that is moved along a step ----

  function Delta(col: int, step: LS.Row): real { if 0 <= col < |step| then step[col] else 0.0 }

  /** The change of an edge's vector. */
  function Drift(e: Edge, m: seq<Cols>, step: LS.Row): Vec
    requires e.i < |m| && e.j < |m|
  {
    Vec(Delta(m[e.i].x, step) - Delta(m[e.j].x, step), Delta(m[e.i].y, step) - Delta(m[e.j].y, step),
        Delta(m[e.i].z, step) - Delta(m[e.j].z, step))
  }

  lemma SpanMoved(e: Edge, nodes: seq<NodeOut>, m: seq<Cols>, step: LS.Row)
    requires |m| == |nodes|
    ensures UsableEdge(e, Moved(nodes, m, step)) <==> UsableEdge(e, nodes)
    ensures UsableEdge(e, nodes) ==> Span(e, Moved(nodes, m, step)) == T3.Add(Span(e, nodes), Drift(e, m, step))
  {
    var after := Moved(nodes, m, step);
    assert forall k :: 0 <= k < |nodes| ==> after[k] == MovedNode(nodes[k], m[k], step);
  }

  /** The product of gradient entries with a step. */
  function EntrySum(en: seq<Entry>, step: LS.Row): real {
    if en == [] then 0.0
    else EntrySum(en[..|en| - 1], step) + LS.Times(en[|en| - 1].grad, Delta(en[|en| - 1].col, step))
  }

  lemma {:induction false} EntrySumConcat(a: seq<Entry>, b: seq<Entry>, step: LS.Row)
    ensures EntrySum(a + b, step) == EntrySum(a, step) + EntrySum(b, step)
  {
    if b == [] {
      assert a + b == a;
    } else {
      assert (a + b)[..|a + b| - 1] == a + b[..|b| - 1];
      EntrySumConcat(a, b[..|b| - 1], step);
    }
  }

  lemma TimesDifference(s: real, a: real, b: real)
    ensures LS.Times(s, a) + LS.Times(-s, b) == LS.Times(s, a - b)
    ensures LS.Times(s, 0.0) == 0.0
  {}

  lemma AxisSum(ci: int, cj: int, slope: real, step: LS.Row)
    ensures EntrySum(AxisEntries(ci, cj, slope), step) == LS.Times(slope, Delta(ci, step) - Delta(cj, step))
  {
    TimesDifference(slope, Delta(ci, step), Delta(cj, step));
    TimesDifference(-slope, Delta(cj, step), 0.0);
    var a: seq<Entry> := if ci >= 0 then [Entry(ci, slope)] else [];
    var b: seq<Entry> := if cj >= 0 then [Entry(cj, -slope)] else [];
    EntrySumConcat(a, b, step);
    OneEntrySum(a, step);
    OneEntrySum(b, step);
  }

  lemma OneEntrySum(en: seq<Entry>, step: LS.Row)
    requires |en| <= 1
    ensures EntrySum(en, step) == if en == [] then 0.0 else LS.Times(en[0].grad, Delta(en[0].col, step))
  {
    if en != [] { assert en[..|en| - 1] == []; }
  }

  /** The gradient of the weighted residual is the direction of the edge, divided by its deviation. */
  lemma SlopesTogether(v: Vec, h: Vec, l: real, w: real, r: real)
    requires l > 0.0 && r * l == T3.Dot(v, h)
    ensures LS.Times(Slope(v.x, l, w), h.x) + LS.Times(Slope(v.y, l, w), h.y) + LS.Times(Slope(v.z, l, w), h.z) == r * w
  {
    SlopeTimes(v.x, l, w, h.x);
    SlopeTimes(v.y, l, w, h.y);
    SlopeTimes(v.z, l, w, h.z);
    var x, y, z := v.x * h.x / l, v.y * h.y / l, v.z * h.z / l;
    Quotients(v.x * h.x, v.y * h.y, v.z * h.z, l, r);
    SumTimes(x, y, z, r, w);
  }

  lemma SumTimes(x: real, y: real, z: real, r: real, w: real)
    requires x + y + z == r
    ensures x * w + y * w + z * w == r * w
  {}

  lemma SlopeTimes(a: real, l: real, w: real, h: real)
    requires l > 0.0
    ensures LS.Times(Slope(a, l, w), h) == (a * h / l) * w
  {
    var q := a / l;
    assert a == q * l;
    assert a * h == (q * h) * l;
    assert a * h / l == q * h;
  }

  lemma Quotients(a: real, b: real, c: real, l: real, r: real)
    requires l > 0.0 && r * l == a + b + c
    ensures a / l + b / l + c / l == r
  {
    assert (a / l + b / l + c / l - r) * l == 0.0;
  }

  lemma ThreeAxes(a: Cols, b: Cols, sx: real, sy: real, sz: real, step: LS.Row)
    ensures EntrySum(AxisEntries(a.x, b.x, sx) + AxisEntries(a.y, b.y, sy) + AxisEntries(a.z, b.z, sz), step)
      == LS.Times(sx, Delta(a.x, step) - Delta(b.x, step)) + LS.Times(sy, Delta(a.y, step) - Delta(b.y, step))
         + LS.Times(sz, Delta(a.z, step) - Delta(b.z, step))
  {
    var ex, ey, ez := AxisEntries(a.x, b.x, sx), AxisEntries(a.y, b.y, sy), AxisEntries(a.z, b.z, sz);
    EntrySumConcat(ex + ey, ez, step);
    EntrySumConcat(ex, ey, step);
    AxisSum(a.x, b.x, sx, step);
    AxisSum(a.y, b.y, sy, step);
    AxisSum(a.z, b.z, sz, step);
  }

  lemma EntriesAre(e: Edge, nodes: seq<NodeOut>, m: seq<Cols>, v: Vec, l: real, w: real, sqrt: real -> real)
    requires |m| == |nodes| && Active(e, nodes, sqrt)
    requires v == Span(e, nodes) && l == T3.Norm(v, sqrt) && w == 1.0 / SdFloor(e)
    ensures l > 0.0
    ensures Entries(e, nodes, m, sqrt) == AxisEntries(m[e.i].x, m[e.j].x, Slope(v.x, l, w))
      + AxisEntries(m[e.i].y, m[e.j].y, Slope(v.y, l, w)) + AxisEntries(m[e.i].z, m[e.j].z, Slope(v.z, l, w))
  {}

  lemma EntriesSum(e: Edge, nodes: seq<NodeOut>, m: seq<Cols>, step: LS.Row, v: Vec, h: Vec, l: real, w: real, r: real, sqrt: real -> real)
    requires |m| == |nodes| && Active(e, nodes, sqrt)
    requires v == Span(e, nodes) && h == Drift(e, m, step) && l == T3.Norm(v, sqrt) && w == 1.0 / SdFloor(e)
    requires r * l == T3.Dot(v, h)
    ensures l > 0.0 && EntrySum(Entries(e, nodes, m, sqrt), step) == r * w
  {
    EntriesAre(e, nodes, m, v, l, w, sqrt);
    ThreeAxes(m[e.i], m[e.j], Slope(v.x, l, w), Slope(v.y, l, w), Slope(v.z, l, w), step);
    SlopesTogether(v, h, l, w, r);
  }

  lemma ScaledSquare(a: real, s: real, w: real)
    requires s > 0.0 && w == 1.0 / s
    ensures Sq(a / s) == Sq(a) * Sq(w)
  {
    assert a / s == a * w by { assert (a * w) * s == a * (w * s); }
    assert (a * w) * (a * w) == (a * a) * (w * w);
  }

  lemma ScaleBound(a: real, b: real, c: real, h: real, k: real)
    requires a <= b + 2.0 * c + h && k >= 0.0
    ensures a * k <= b * k + 2.0 * (c * k) + h * k
  {
    NonNegativeTimes(b + 2.0 * c + h - a, k);
  }

  lemma Regroup(b: real, r: real, w: real)
    ensures (b * r) * Sq(w) == LS.Times(b * w, r * w)
  {}

  /** Dividing the misfit bound by the squared deviation. */
  lemma Weigh(a: real, b: real, r: real, hh: real, s: real, w: real)
    requires s > 0.0 && w == 1.0 / s && Sq(a) <= Sq(b) + 2.0 * (b * r) + hh
    ensures Sq(a / s) <= Sq(b / s) + 2.0 * LS.Times(b * w, r * w) + LS.Times(hh, Sq(w))
  {
    ScaledSquare(a, s, w);
    ScaledSquare(b, s, w);
    ScaleBound(Sq(a), Sq(b), b * r, hh, Sq(w));
    Regroup(b, r, w);
  }

  /** The squared stretch of an edge in units of its deviation. */
  function Strain(e: Edge, nodes: seq<NodeOut>, m: seq<Cols>, step: LS.Row): real
    requires |m| == |nodes|
  {
    if UsableEdge(e, nodes) then LS.Times(T3.Dot(Drift(e, m, step), Drift(e, m, step)), Sq(1.0 / SdFloor(e))) else 0.0
  }

  lemma EdgeNumbers(e: Edge, nodes: seq<NodeOut>, m: seq<Cols>, step: LS.Row, h: Vec, a: real, b: real, s: real, w: real, hh: real, sqrt: real -> real)
    requires |m| == |nodes| && UsableEdge(e, nodes) && h == Drift(e, m, step) && s == SdFloor(e) && w == 1.0 / s
    requires a == T3.Norm(T3.Add(Span(e, nodes), h), sqrt) - e.d && b == Residual(e, nodes, sqrt) && hh == T3.Dot(h, h)
    ensures EdgeCost(e, Moved(nodes, m, step), sqrt) == Sq(a / s) && EdgeCost(e, nodes, sqrt) == Sq(b / s)
    ensures Weighted(e, nodes, sqrt) == b * w && Strain(e, nodes, m, step) == LS.Times(hh, Sq(w))
  {
    SpanMoved(e, nodes, m, step);
  }

  lemma Combine(after: real, before: real, weighted: real, slope: real, strain: real, a: real, b: real, r: real, hh: real, s: real, w: real)
    requires s > 0.0 && w == 1.0 / s && after == Sq(a / s) && before == Sq(b / s)
    requires weighted == b * w && slope == r * w && strain == LS.Times(hh, Sq(w)) && Sq(a) <= Sq(b) + 2.0 * (b * r) + hh
    ensures after <= before + 2.0 * LS.Times(weighted, slope) + strain
  {
    Weigh(a, b, r, hh, s, w);
  }

  lemma RateOf(p: real, l: real) returns (r: real)
    requires l > 0.0
    ensures r * l == p
  {
    r := p / l;
  }

  lemma EdgeCostMajorised(e: Edge, nodes: seq<NodeOut>, m: seq<Cols>, step: LS.Row, sqrt: real -> real)
    requires T3.IsRoot(sqrt) && |m| == |nodes| && Active(e, nodes, sqrt) && e.d >= 0.0
    ensures EdgeCost(e, Moved(nodes, m, step), sqrt) <= EdgeCost(e, nodes, sqrt)
      + 2.0 * LS.Times(Weighted(e, nodes, sqrt), EntrySum(Entries(e, nodes, m, sqrt), step)) + Strain(e, nodes, m, step)
  {
    var v, h, s := Span(e, nodes), Drift(e, m, step), SdFloor(e);
    var l, n, w, hh := T3.Norm(v, sqrt), T3.Norm(T3.Add(v, h), sqrt), 1.0 / s, T3.Dot(h, h);
    var a, b := n - e.d, l - e.d;
    var r := RateOf(T3.Dot(v, h), l);
    EdgeNumbers(e, nodes, m, step, h, a, b, s, w, hh, sqrt);
    EntriesSum(e, nodes, m, step, v, h, l, w, r, sqrt);
    VectorMisfit(v, h, e.d, l, n, r, a, b, hh, sqrt);
    Combine(EdgeCost(e, Moved(nodes, m, step), sqrt), EdgeCost(e, nodes, sqrt), Weighted(e, nodes, sqrt),
            EntrySum(Entries(e, nodes, m, sqrt), step), Strain(e, nodes, m, step), a, b, r, hh, s, w);
  }

  /** An edge of no length: the change of the vector is the new vector, of length n. */
  lemma PointMisfit(n: real, d: real, nn: real)
    requires n >= 0.0 && d >= 0.0 && n * n == nn
    ensures Sq(n - d) <= Sq(0.0 - d) + 2.0 * ((0.0 - d) * 0.0) + nn
  {
    NonNegativeTimes(n, d);
    assert (n - d) * (n - d) == nn - 2.0 * (n * d) + d * d;
  }

  lemma ZeroSpan(v: Vec, h: Vec, sqrt: real -> real, ll: real)
    requires T3.IsRoot(sqrt) && T3.Norm(v, sqrt) == 0.0 && ll == T3.Dot(v, v)
    ensures T3.Add(v, h) == h
  {
    RootOf(v, sqrt, 0.0, ll);
    T3.SquaresArePositive(v);
  }

  lemma PointCombine(after: real, before: real, weighted: real, strain: real, a: real, b: real, hh: real, s: real, w: real)
    requires s > 0.0 && w == 1.0 / s && after == Sq(a / s) && before == Sq(b / s)
    requires weighted == b * w && strain == LS.Times(hh, Sq(w)) && Sq(a) <= Sq(b) + 2.0 * (b * 0.0) + hh
    ensures after <= before + 2.0 * LS.Times(weighted, 0.0) + strain
  {
    Combine(after, before, weighted, 0.0, strain, a, b, 0.0, hh, s, w);
  }

  lemma NoEntries(e: Edge, nodes: seq<NodeOut>, m: seq<Cols>, step: LS.Row, sqrt: real -> real)
    requires |m| == |nodes| && !Active(e, nodes, sqrt)
    ensures EntrySum(Entries(e, nodes, m, sqrt), step) == 0.0
  {}

  /** The code leaves an edge of no length out of the normal equations, and may. */
  lemma PointEdgeMajorised(e: Edge, nodes: seq<NodeOut>, m: seq<Cols>, step: LS.Row, sqrt: real -> real)
    requires T3.IsRoot(sqrt) && |m| == |nodes| && UsableEdge(e, nodes) && e.d >= 0.0
    requires !Active(e, nodes, sqrt) && T3.Norm(Span(e, nodes), sqrt) == 0.0
    ensures EdgeCost(e, Moved(nodes, m, step), sqrt) <= EdgeCost(e, nodes, sqrt)
      + 2.0 * LS.Times(Weighted(e, nodes, sqrt), EntrySum(Entries(e, nodes, m, sqrt), step)) + Strain(e, nodes, m, step)
  {
    var v, h, s := Span(e, nodes), Drift(e, m, step), SdFloor(e);
    var n, w, hh := T3.Norm(h, sqrt), 1.0 / s, T3.Dot(h, h);
    var a, b := n - e.d, 0.0 - e.d;
    ZeroSpan(v, h, sqrt, T3.Dot(v, v));
    RootOf(h, sqrt, n, hh);
    EdgeNumbers(e, nodes, m, step, h, a, b, s, w, hh, sqrt);
    PointMisfit(n, e.d, hh);
    NoEntries(e, nodes, m, step, sqrt);
    PointCombine(EdgeCost(e, Moved(nodes, m, step), sqrt), EdgeCost(e, nodes, sqrt), Weighted(e, nodes, sqrt),
                 Strain(e, nodes, m, step), a, b, hh, s, w);
  }

  // ---- The whole cost ----

  lemma {:induction false} RowDotIsEntrySum(en: seq<Entry>, step: LS.Row)
    requires DistinctCols(en) && forall k :: 0 <= k < |en| ==> en[k].col < |step|
    ensures LS.Dot(DS.GradRow(en, |step|), step, 0, |step|) == EntrySum(en, step)
  {
    var n := |step|;
    if en == [] {
      LS.DotZero(DS.GradRow(en, n), step, 0, n);
    } else {
      var rest, last := en[..|en| - 1], en[|en| - 1];
      RowDotIsEntrySum(rest, step);
      GradNowhere(rest, last.col);
      var unit := seq(n, p requires 0 <= p < n => if p == last.col then last.grad else 0.0);
      DS.OneEntry(unit, step, last.col, n);
      DS.SumOfRows(DS.GradRow(en, n), DS.GradRow(rest, n), unit, step);
    }
  }

  /** The edge has a direction, or no length at all. */
  predicate Directed(e: Edge, nodes: seq<NodeOut>, sqrt: real -> real) {
    UsableEdge(e, nodes) ==> Active(e, nodes, sqrt) || T3.Norm(Span(e, nodes), sqrt) == 0.0
  }

  /** No usable edge has a length between nothing and the code's epsilon, and none was measured
      as negative. */
  ghost predicate AllDirected(es: seq<Edge>, nodes: seq<NodeOut>, sqrt: real -> real) {
    forall e :: e in es && UsableEdge(e, nodes) ==> Directed(e, nodes, sqrt) && e.d >= 0.0
  }

  /** The map numbers coordinates below n, no two alike. */
  ghost predicate Maps(m: seq<Cols>, n: nat) {
    Injective(m) && forall k: nat, a: nat :: k < |m| && a < 3 ==> ColOf(m[k], a) < n
  }

  /** The map that the refinement builds is such a map. */
  lemma BuiltMapMaps(nodes: seq<NodeOut>, g: Gauge, dim: Dim)
    ensures var (m, n) := Map(nodes, g, dim); |m| == |nodes| && Maps(m, n)
  {
    MapNumbers(nodes, g, dim, |nodes|);
  }

  function TotalStrain(es: seq<Edge>, nodes: seq<NodeOut>, m: seq<Cols>, step: LS.Row): real
    requires |m| == |nodes|
  {
    if es == [] then 0.0
    else TotalStrain(es[..|es| - 1], nodes, m, step) + Strain(es[|es| - 1], nodes, m, step)
  }

  /** What the right-hand side says the last edge adds. */
  lemma DescentStep(es: seq<Edge>, nodes: seq<NodeOut>, m: seq<Cols>, step: LS.Row, sqrt: real -> real)
    requires |m| == |nodes| && Maps(m, |step|) && es != []
    ensures var n, e := |step|, es[|es| - 1];
      LS.Dot(DescentVector(es, nodes, m, sqrt, n), step, 0, n)
        == LS.Dot(DescentVector(es[..|es| - 1], nodes, m, sqrt, n), step, 0, n)
           - LS.Times(Weighted(e, nodes, sqrt), EntrySum(Entries(e, nodes, m, sqrt), step))
  {
    var n, e := |step|, es[|es| - 1];
    var u, v := DescentVector(es, nodes, m, sqrt, n), DescentVector(es[..|es| - 1], nodes, m, sqrt, n);
    var en, f := Entries(e, nodes, m, sqrt), Weighted(e, nodes, sqrt);
    var g := DS.GradRow(en, n);
    EntriesAreDistinct(e, nodes, m, n, sqrt);
    RowDotIsEntrySum(en, step);
    forall p | 0 <= p < n ensures u[p] == LS.Minus(v[p], f, g[p]) { MinusTimes(v[p], f, g[p]); }
    LS.DotAxpy(v, g, u, f, step, n);
    MinusTimes(LS.Dot(v, step, 0, n), f, LS.Dot(g, step, 0, n));
  }

  lemma MinusTimes(a: real, f: real, b: real)
    ensures LS.Minus(a, f, b) == a - LS.Times(f, b) == a - LS.Times(b, f)
  {}

  lemma OneEdge(e: Edge, nodes: seq<NodeOut>, m: seq<Cols>, step: LS.Row, sqrt: real -> real)
    requires T3.IsRoot(sqrt) && |m| == |nodes| && (UsableEdge(e, nodes) ==> Directed(e, nodes, sqrt) && e.d >= 0.0)
    ensures EdgeCost(e, Moved(nodes, m, step), sqrt) <= EdgeCost(e, nodes, sqrt)
      + 2.0 * LS.Times(Weighted(e, nodes, sqrt), EntrySum(Entries(e, nodes, m, sqrt), step)) + Strain(e, nodes, m, step)
  {
    if Active(e, nodes, sqrt) {
      EdgeCostMajorised(e, nodes, m, step, sqrt);
    } else if UsableEdge(e, nodes) {
      PointEdgeMajorised(e, nodes, m, step, sqrt);
    } else {
      SpanMoved(e, nodes, m, step);
      LS.ZeroTimes(0.0);
    }
  }

  /** Moving along any step raises the cost by no more than the squared strain, less twice the
      step's product with the assembled right-hand side: that vector is the direction in which
      the cost falls. */
  lemma {:induction false} CostMajorised(es: seq<Edge>, nodes: seq<NodeOut>, m: seq<Cols>, step: LS.Row, sqrt: real -> real)
    requires T3.IsRoot(sqrt) && |m| == |nodes| && Maps(m, |step|) && AllDirected(es, nodes, sqrt)
    ensures Cost(es, Moved(nodes, m, step), sqrt) <= Cost(es, nodes, sqrt)
      - 2.0 * LS.Dot(DescentVector(es, nodes, m, sqrt, |step|), step, 0, |step|) + TotalStrain(es, nodes, m, step)
    decreases |es|
  {
    if es == [] {
      LS.DotZero(DescentVector(es, nodes, m, sqrt, |step|), step, 0, |step|);
    } else {
      var e := es[|es| - 1];
      assert e in es && forall x :: x in es[..|es| - 1] ==> x in es;
      CostMajorised(es[..|es| - 1], nodes, m, step, sqrt);
      DescentStep(es, nodes, m, step, sqrt);
      OneEdge(e, nodes, m, step, sqrt);
    }
  }
}
