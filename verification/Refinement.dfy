/** Damped least-squares refinement of a layout: normal equations edge by edge, a dense solve,
    and a step that is kept only when it lowers the cost. */
module Refinement {
  import opened SurveyFit
  import opened SurveyEdges
  import opened Reals
  import opened Seeding
  import opened SeedingGauge
  import opened SurveyLayout
  import opened ParameterMap
  import T3 = Trilateration
  import LS = LinearSolver

  const MAX_COLS: nat := 24
  const MAX_ITER: nat := 200

  // ---- Cost ----

  function SdFloor(e: Edge): (r: real)
    ensures r > 0.0
  {
    if e.sd > 0.0001 then e.sd else 0.0001
  }

  predicate UsableEdge(e: Edge, nodes: seq<NodeOut>) {
    e.i < |nodes| && e.j < |nodes| && e.i != e.j && IsPlaced(nodes[e.i]) && IsPlaced(nodes[e.j])
  }

  function Span(e: Edge, nodes: seq<NodeOut>): Vec
    requires UsableEdge(e, nodes)
  {
    T3.Sub(nodes[e.i].at, nodes[e.j].at)
  }

  /** How much longer the layout makes an edge than it was measured. */
  function Residual(e: Edge, nodes: seq<NodeOut>, sqrt: real -> real): real
    requires UsableEdge(e, nodes)
  {
    T3.Norm(Span(e, nodes), sqrt) - e.d
  }

  function Sq(x: real): (r: real)
    ensures r >= 0.0
  {
    T3.SqPositive(x);
    x * x
  }

  function EdgeCost(e: Edge, nodes: seq<NodeOut>, sqrt: real -> real): (r: real)
    ensures r >= 0.0
  {
    if UsableEdge(e, nodes) then Sq(Residual(e, nodes, sqrt) / SdFloor(e)) else 0.0
  }

  /** The weighted sum of squared residuals. */
  function Cost(es: seq<Edge>, nodes: seq<NodeOut>, sqrt: real -> real): (r: real)
    ensures r >= 0.0
  {
    if es == [] then 0.0 else Cost(es[..|es| - 1], nodes, sqrt) + EdgeCost(es[|es| - 1], nodes, sqrt)
  }

  method CostOf(es: seq<Edge>, nodes: seq<NodeOut>, sqrt: real -> real) returns (c: real)
    ensures c == Cost(es, nodes, sqrt)
  {
    c := 0.0;
    for k := 0 to |es|
      invariant c == Cost(es[..k], nodes, sqrt)
    {
      assert es[..k + 1][..k] == es[..k];
      c := c + EdgeCost(es[k], nodes, sqrt);
    }
    assert es[..|es|] == es;
  }

  // ---- The normal equations ----

  datatype Entry = Entry(col: nat, grad: real)

  /** The free coordinates of one axis at the two ends of an edge, with opposite slopes. */
  function AxisEntries(ci: int, cj: int, slope: real): seq<Entry> {
    (if ci >= 0 then [Entry(ci, slope)] else []) + (if cj >= 0 then [Entry(cj, -slope)] else [])
  }

  predicate Active(e: Edge, nodes: seq<NodeOut>, sqrt: real -> real) {
    UsableEdge(e, nodes) && T3.Norm(Span(e, nodes), sqrt) >= T3.EPS
  }

  function Slope(x: real, len: real, w: real): real
    requires len != 0.0
  {
    x / len * w
  }

  /** The non-zero gradient of an edge's weighted residual, by column. */
  function Entries(e: Edge, nodes: seq<NodeOut>, m: seq<Cols>, sqrt: real -> real): seq<Entry>
    requires |m| == |nodes|
  {
    if !Active(e, nodes, sqrt) then []
    else
      var v, w := Span(e, nodes), 1.0 / SdFloor(e);
      var len := T3.Norm(v, sqrt);
      AxisEntries(m[e.i].x, m[e.j].x, Slope(v.x, len, w)) + AxisEntries(m[e.i].y, m[e.j].y, Slope(v.y, len, w))
      + AxisEntries(m[e.i].z, m[e.j].z, Slope(v.z, len, w))
  }

  function Weighted(e: Edge, nodes: seq<NodeOut>, sqrt: real -> real): real {
    if UsableEdge(e, nodes) then Residual(e, nodes, sqrt) * (1.0 / SdFloor(e)) else 0.0
  }

  function GradAt(en: seq<Entry>, p: nat): real {
    if en == [] then 0.0
    else if en[|en| - 1].col == p then en[|en| - 1].grad else GradAt(en[..|en| - 1], p)
  }

  ghost predicate DistinctCols(en: seq<Entry>) {
    forall a, b :: 0 <= a < b < |en| ==> en[a].col != en[b].col
  }

  /** Entry (p, q) of the sum of the outer products of the gradients. */
  ghost function Normal(es: seq<Edge>, nodes: seq<NodeOut>, m: seq<Cols>, sqrt: real -> real, p: nat, q: nat): real
    requires |m| == |nodes|
  {
    if es == [] then 0.0
    else
      var en := Entries(es[|es| - 1], nodes, m, sqrt);
      Normal(es[..|es| - 1], nodes, m, sqrt, p, q) + LS.Times(GradAt(en, p), GradAt(en, q))
  }

  /** Entry p of the right-hand side: less each edge's gradient times its weighted residual. */
  ghost function Descent(es: seq<Edge>, nodes: seq<NodeOut>, m: seq<Cols>, sqrt: real -> real, p: nat): real
    requires |m| == |nodes|
  {
    if es == [] then 0.0
    else
      var e := es[|es| - 1];
      Descent(es[..|es| - 1], nodes, m, sqrt, p) - LS.Times(GradAt(Entries(e, nodes, m, sqrt), p), Weighted(e, nodes, sqrt))
  }

  lemma {:induction false} GradNowhere(en: seq<Entry>, p: nat)
    requires forall a :: 0 <= a < |en| ==> en[a].col != p
    ensures GradAt(en, p) == 0.0
  {
    if en != [] { GradNowhere(en[..|en| - 1], p); }
  }

  lemma GradStep(en: seq<Entry>, a: nat, p: nat)
    requires a < |en|
    ensures GradAt(en[..a + 1], p) == if en[a].col == p then en[a].grad else GradAt(en[..a], p)
  {
    assert en[..a + 1][..a] == en[..a];
  }

  /** Adds one gradient entry's row of products. */
  method AddRow(jtj: array2<real>, n: nat, en: seq<Entry>, a: nat)
    requires n <= jtj.Length0 && n <= jtj.Length1 && a < |en|
    requires DistinctCols(en) && forall k :: 0 <= k < |en| ==> en[k].col < n
    modifies jtj
    ensures forall p: nat, q: nat :: p < n && q < n ==>
      jtj[p, q] == old(jtj[p, q]) + (if p == en[a].col then LS.Times(en[a].grad, GradAt(en, q)) else 0.0)
  {
    ghost var row := en[a].col;
    var b := 0;
    forall q: nat | q < n ensures LS.Times(en[a].grad, GradAt(en[..0], q)) == 0.0 { TimesZero(en[a].grad); }
    while b < |en|
      invariant 0 <= b <= |en|
      invariant forall p: nat, q: nat :: p < n && q < n && p != row ==> jtj[p, q] == old(jtj[p, q])
      invariant forall q: nat :: q < n ==> jtj[row, q] == old(jtj[row, q]) + LS.Times(en[a].grad, GradAt(en[..b], q))
    {
      var c := en[b].col;
      forall q: nat | q < n
        ensures GradAt(en[..b + 1], q) == (if q == c then en[b].grad else GradAt(en[..b], q))
      {
        GradStep(en, b, q);
      }
      GradNowhere(en[..b], c);
      TimesZero(en[a].grad);
      jtj[en[a].col, c] := jtj[en[a].col, c] + LS.Times(en[a].grad, en[b].grad);
      b := b + 1;
    }
    assert en[..|en|] == en;
  }

  lemma TimesZero(x: real)
    ensures LS.Times(x, 0.0) == 0.0 && LS.Times(0.0, x) == 0.0
  {}

  /** Adds one edge: its gradient's outer product, and its residual's pull. */
  method AddEdge(jtj: array2<real>, jtr: array<real>, n: nat, en: seq<Entry>, res: real)
    requires n <= jtj.Length0 && n <= jtj.Length1 && n <= jtr.Length
    requires DistinctCols(en) && forall k :: 0 <= k < |en| ==> en[k].col < n
    modifies jtj, jtr
    ensures forall p: nat, q: nat :: p < n && q < n ==>
      jtj[p, q] == old(jtj[p, q]) + LS.Times(GradAt(en, p), GradAt(en, q))
    ensures forall p: nat :: p < n ==> jtr[p] == old(jtr[p]) - LS.Times(GradAt(en, p), res)
  {
    forall q: nat ensures LS.Times(GradAt(en[..0], q), res) == 0.0 { TimesZero(res); }
    forall p: nat, q: nat ensures LS.Times(GradAt(en[..0], p), GradAt(en, q)) == 0.0 { TimesZero(GradAt(en, q)); }
    var a := 0;
    while a < |en|
      invariant 0 <= a <= |en|
      invariant forall p: nat, q: nat :: p < n && q < n ==>
        jtj[p, q] == old(jtj[p, q]) + LS.Times(GradAt(en[..a], p), GradAt(en, q))
      invariant forall p: nat :: p < n ==> jtr[p] == old(jtr[p]) - LS.Times(GradAt(en[..a], p), res)
    {
      var c := en[a].col;
      GradNowhere(en[..a], c);
      forall p: nat | p < n
        ensures GradAt(en[..a + 1], p) == (if p == c then en[a].grad else GradAt(en[..a], p))
      {
        GradStep(en, a, p);
      }
      forall q: nat ensures LS.Times(0.0, GradAt(en, q)) == 0.0 { TimesZero(GradAt(en, q)); }
      TimesZero(res);
      jtr[c] := jtr[c] - LS.Times(en[a].grad, res);
      AddRow(jtj, n, en, a);
      a := a + 1;
    }
    assert en[..|en|] == en;
  }

  // ---- An edge's gradient touches each column once ----

  lemma AxisEntriesFrom(m: seq<Cols>, i: nat, j: nat, axis: nat, slope: real, p: nat)
    requires i < |m| && j < |m| && i != j && axis < 3 && Injective(m)
    requires forall k: nat, a: nat :: k < |m| && a < 3 ==> ColOf(m[k], a) < p
    ensures var en := AxisEntries(ColOf(m[i], axis), ColOf(m[j], axis), slope);
      && DistinctCols(en)
      && forall x :: x in en ==> x.col < p && (x.col == ColOf(m[i], axis) || x.col == ColOf(m[j], axis))
  {}

  lemma DistinctConcat(a: seq<Entry>, b: seq<Entry>)
    requires DistinctCols(a) && DistinctCols(b) && forall x, y :: x in a && y in b ==> x.col != y.col
    ensures DistinctCols(a + b)
  {}

  lemma EntriesAreDistinct(e: Edge, nodes: seq<NodeOut>, m: seq<Cols>, p: nat, sqrt: real -> real)
    requires |m| == |nodes| && Injective(m)
    requires forall k: nat, a: nat :: k < |m| && a < 3 ==> ColOf(m[k], a) < p
    ensures DistinctCols(Entries(e, nodes, m, sqrt))
    ensures forall x :: x in Entries(e, nodes, m, sqrt) ==> x.col < p
  {
    if Active(e, nodes, sqrt) {
      var v, w := Span(e, nodes), 1.0 / SdFloor(e);
      var len := T3.Norm(v, sqrt);
      JoinAxes(m, e.i, e.j, Slope(v.x, len, w), Slope(v.y, len, w), Slope(v.z, len, w), p);
    }
  }

  lemma JoinAxes(m: seq<Cols>, i: nat, j: nat, sx: real, sy: real, sz: real, p: nat)
    requires i < |m| && j < |m| && i != j && Injective(m)
    requires forall k: nat, a: nat :: k < |m| && a < 3 ==> ColOf(m[k], a) < p
    ensures var en := AxisEntries(m[i].x, m[j].x, sx) + AxisEntries(m[i].y, m[j].y, sy) + AxisEntries(m[i].z, m[j].z, sz);
      DistinctCols(en) && forall x :: x in en ==> x.col < p
  {
    var ex, ey, ez := AxisEntries(m[i].x, m[j].x, sx), AxisEntries(m[i].y, m[j].y, sy), AxisEntries(m[i].z, m[j].z, sz);
    AxisEntriesFrom(m, i, j, 0, sx, p);
    AxisEntriesFrom(m, i, j, 1, sy, p);
    AxisEntriesFrom(m, i, j, 2, sz, p);
    forall a, b | a in ex && b in ey ensures a.col != b.col { Apart(m, i, j, 0, 1, a.col, b.col); }
    DistinctConcat(ex, ey);
    forall a, b | a in ex + ey && b in ez ensures a.col != b.col {
      if a in ex { Apart(m, i, j, 0, 2, a.col, b.col); } else { Apart(m, i, j, 1, 2, a.col, b.col); }
    }
    DistinctConcat(ex + ey, ez);
  }

  lemma Apart(m: seq<Cols>, i: nat, j: nat, a: nat, b: nat, x: nat, y: nat)
    requires i < |m| && j < |m| && Injective(m) && a < 3 && b < 3 && a != b
    requires x == ColOf(m[i], a) || x == ColOf(m[j], a)
    requires y == ColOf(m[i], b) || y == ColOf(m[j], b)
    ensures x != y
  {}

  /** Fills the normal equations of the whole layout. */
  method Assemble(es: seq<Edge>, nodes: seq<NodeOut>, m: seq<Cols>, n: nat, jtj: array2<real>, jtr: array<real>, sqrt: real -> real)
    requires |m| == |nodes| && Injective(m)
    requires forall k: nat, a: nat :: k < |m| && a < 3 ==> ColOf(m[k], a) < n
    requires n <= jtj.Length0 && n <= jtj.Length1 && n <= jtr.Length
    modifies jtj, jtr
    ensures forall p: nat, q: nat :: p < n && q < n ==> jtj[p, q] == Normal(es, nodes, m, sqrt, p, q)
    ensures forall p: nat :: p < n ==> jtr[p] == Descent(es, nodes, m, sqrt, p)
  {
    forall p, q | 0 <= p < jtj.Length0 && 0 <= q < jtj.Length1 { jtj[p, q] := 0.0; }
    forall p | 0 <= p < jtr.Length { jtr[p] := 0.0; }
    for k := 0 to |es|
      invariant forall p: nat, q: nat :: p < n && q < n ==> jtj[p, q] == Normal(es[..k], nodes, m, sqrt, p, q)
      invariant forall p: nat :: p < n ==> jtr[p] == Descent(es[..k], nodes, m, sqrt, p)
    {
      assert es[..k + 1][..k] == es[..k] && es[..k + 1][k] == es[k];
      var en := Entries(es[k], nodes, m, sqrt);
      EntriesAreDistinct(es[k], nodes, m, n, sqrt);
      AddEdge(jtj, jtr, n, en, Weighted(es[k], nodes, sqrt));
    }
    assert es[..|es|] == es;
  }

  function Damping(d: real): real { if d > 0.0 then d else 1.0 }

  /** The damped system: the normal matrix with each diagonal entry raised in proportion. */
  method Damp(jtj: array2<real>, jtr: array<real>, n: nat, lambda: real, a: array2<real>, b: array<real>)
    requires n <= jtj.Length0 && n <= jtj.Length1 && n <= jtr.Length
    requires n <= a.Length0 && n <= a.Length1 && n <= b.Length && a != jtj && b != jtr
    modifies a, b
    ensures forall p: nat, q: nat :: p < n && q < n ==>
      a[p, q] == jtj[p, q] + (if p == q then LS.Times(lambda, Damping(jtj[p, p])) else 0.0)
    ensures forall p: nat :: p < n ==> b[p] == jtr[p]
  {
    for p := 0 to n
      invariant forall r: nat, q: nat :: r < p && q < n ==>
        a[r, q] == jtj[r, q] + (if r == q then LS.Times(lambda, Damping(jtj[r, r])) else 0.0)
      invariant forall r: nat :: r < p ==> b[r] == jtr[r]
    {
      for q := 0 to n
        invariant forall r: nat, c: nat :: r < p && c < n ==>
          a[r, c] == jtj[r, c] + (if r == c then LS.Times(lambda, Damping(jtj[r, r])) else 0.0)
        invariant forall c: nat :: c < q ==> a[p, c] == jtj[p, c]
        invariant forall r: nat :: r < p ==> b[r] == jtr[r]
      {
        a[p, q] := jtj[p, q];
      }
      a[p, p] := a[p, p] + LS.Times(lambda, Damping(jtj[p, p]));
      b[p] := jtr[p];
    }
  }

  ghost function DampedMatrix(es: seq<Edge>, nodes: seq<NodeOut>, m: seq<Cols>, sqrt: real -> real, n: nat, lambda: real): (r: LS.Matrix)
    requires |m| == |nodes|
    ensures LS.Square(r, n)
  {
    seq(n, p requires 0 <= p < n => seq(n, q requires 0 <= q < n =>
      DampedEntry(es, nodes, m, sqrt, p, q, lambda)))
  }

  ghost function DampedEntry(es: seq<Edge>, nodes: seq<NodeOut>, m: seq<Cols>, sqrt: real -> real, p: nat, q: nat, lambda: real): real
    requires |m| == |nodes|
  {
    Normal(es, nodes, m, sqrt, p, q) + (if p == q then LS.Times(lambda, Damping(Normal(es, nodes, m, sqrt, p, p))) else 0.0)
  }

  ghost function DescentVector(es: seq<Edge>, nodes: seq<NodeOut>, m: seq<Cols>, sqrt: real -> real, n: nat): (r: LS.Row)
    requires |m| == |nodes|
    ensures |r| == n
  {
    seq(n, p requires 0 <= p < n => Descent(es, nodes, m, sqrt, p))
  }

  /** One damped step from nodes: the layout it leads to, or none when the system is singular. */
  method Trial(es: seq<Edge>, nodes: seq<NodeOut>, m: seq<Cols>, n: nat, lambda: real, sqrt: real -> real)
    returns (ok: bool, trial: seq<NodeOut>, step: seq<real>)
    requires |m| == |nodes| && n <= MAX_COLS && Injective(m)
    requires forall k: nat, a: nat :: k < |m| && a < 3 ==> ColOf(m[k], a) < n
    ensures trial == if ok then Moved(nodes, m, step) else nodes
    ensures ok ==> StepOf(es, nodes, m, sqrt, n, lambda, step)
    ensures LS.Dominant(DampedMatrix(es, nodes, m, sqrt, n, lambda), n, 0) ==> ok
  {
    var jtj, a := new real[MAX_COLS, MAX_COLS], new real[MAX_COLS, MAX_COLS];
    var jtr, b := new real[MAX_COLS], new real[MAX_COLS];
    Assemble(es, nodes, m, n, jtj, jtr, sqrt);
    Damp(jtj, jtr, n, lambda, a, b);
    LS.MatrixEqual(LS.Rows(a, n), DampedMatrix(es, nodes, m, sqrt, n, lambda), n);
    assert b[..n] == DescentVector(es, nodes, m, sqrt, n);
    ok := LS.SolveDense(a, b, n);
    step := b[..n];
    trial := nodes;
    if ok { trial := ApplyStep(nodes, m, b, n); }
  }

  // ---- Refinement never makes the fit worse ----

  lemma {:induction false} MapByStates(before: seq<NodeOut>, after: seq<NodeOut>, g: Gauge, dim: Dim, n: nat)
    requires n <= |before| == |after| && forall k :: 0 <= k < |before| ==> before[k].state == after[k].state
    ensures MapUpto(before, g, dim, n) == MapUpto(after, g, dim, n)
  {
    if n > 0 { MapByStates(before, after, g, dim, n - 1); }
  }

  lemma StepIsPinned(start: seq<NodeOut>, nodes: seq<NodeOut>, g: Gauge, dim: Dim, step: seq<real>)
    requires Pinned(start, nodes, g, dim)
    ensures |Map(start, g, dim).0| == |nodes|
    ensures Pinned(start, Moved(nodes, Map(start, g, dim).0, step), g, dim)
  {
    MapByStates(start, nodes, g, dim, |nodes|);
    MovedIsPinned(nodes, g, dim, step);
    PinnedTrans(start, nodes, Moved(nodes, Map(start, g, dim).0, step), g, dim);
  }

  lemma PinnedRefl(nodes: seq<NodeOut>, g: Gauge, dim: Dim)
    ensures Pinned(nodes, nodes, g, dim)
  {}

  // ---- When the loop must improve the fit ----

  /** A damping at which a step is found and lowers the cost. */
  ghost predicate Improves(es: seq<Edge>, nodes: seq<NodeOut>, m: seq<Cols>, sqrt: real -> real, n: nat, lambda: real)
    requires |m| == |nodes|
  {
    && LS.Dominant(DampedMatrix(es, nodes, m, sqrt, n, lambda), n, 0)
    && forall step :: StepOf(es, nodes, m, sqrt, n, lambda, step) ==> Cost(es, Moved(nodes, m, step), sqrt) < Cost(es, nodes, sqrt)
  }

  ghost predicate StepOf(es: seq<Edge>, nodes: seq<NodeOut>, m: seq<Cols>, sqrt: real -> real, n: nat, lambda: real, step: LS.Row)
    requires |m| == |nodes|
  {
    |step| == n && LS.Solves(DampedMatrix(es, nodes, m, sqrt, n, lambda), DescentVector(es, nodes, m, sqrt, n), step)
  }

  const LAMBDA_MAX: real := 1000000000000.0

  /** The damping of the k-th try when all before were rejected. */
  function Raised(k: nat): real { if k == 0 then 0.001 else Raised(k - 1) * 10.0 }

  /** The last try before the loop gives up. */
  const LAST_RAISE: nat := 15

  lemma {:induction false} RaisedGrows(j: nat, k: nat)
    requires j <= k
    ensures 0.0 < Raised(j) <= Raised(k)
  {
    if j < k { RaisedGrows(j, k - 1); } else if k > 0 { RaisedGrows(k - 1, k - 1); }
  }

  lemma LastRaise()
    ensures Raised(LAST_RAISE) == LAMBDA_MAX
  {
    assert Raised(4) == 10.0 && Raised(8) == 100000.0;
    assert Raised(12) == 1000000000.0;
  }

  lemma RaisedLimits(k: nat)
    ensures Raised(k) > LAMBDA_MAX <==> k > LAST_RAISE
  {
    LastRaise();
    if k <= LAST_RAISE { RaisedGrows(k, LAST_RAISE); } else { RaisedGrows(LAST_RAISE + 1, k); }
  }

  /** Which of the dampings the loop raises to would improve this layout. */
  ghost function Promising(es: seq<Edge>, nodes: seq<NodeOut>, m: seq<Cols>, sqrt: real -> real, n: nat): nat -> bool
    requires |m| == |nodes|
  {
    (k: nat) => Improves(es, nodes, m, sqrt, n, Raised(k))
  }

  /** At some damping the loop reaches, a step from this layout is found and lowers the cost. */
  ghost predicate CanImprove(es: seq<Edge>, nodes: seq<NodeOut>, g: Gauge, sqrt: real -> real) {
    var (m, n) := Map(nodes, g, g.dim);
    |m| == |nodes| && n > 0 && exists k: nat :: k <= LAST_RAISE && Promising(es, nodes, m, sqrt, n)(k)
  }

  /** How far the loop has come: it has improved the fit, or it has tried and rejected one
      damping after the other. */
  ghost predicate Descending(improved: bool, promising: nat -> bool, lambda: real, it: nat) {
    improved || (lambda == Raised(it) && forall k: nat :: k < it ==> !promising(k))
  }

  lemma RejectedRound(improved: bool, promising: nat -> bool, lambda: real, it: nat)
    requires Descending(improved, promising, lambda, it) && (improved || (it <= LAST_RAISE && !promising(it)))
    ensures Descending(improved, promising, lambda * 10.0, it + 1)
    ensures improved || (lambda * 10.0 > LAMBDA_MAX <==> it + 1 > LAST_RAISE)
  {
    RaisedLimits(it + 1);
  }

  /** One damped step and what its cost is; a step that is not found costs what it started from. */
  method TryStep(es: seq<Edge>, nodes: seq<NodeOut>, m: seq<Cols>, n: nat, lambda: real, cost: real,
                 ghost start: seq<NodeOut>, ghost g: Gauge, ghost k: nat, sqrt: real -> real)
    returns (ok: bool, trial: seq<NodeOut>, next: real)
    requires Pinned(start, nodes, g, g.dim) && (m, n) == Map(start, g, g.dim) && |m| == |nodes| && n <= MAX_COLS && Injective(m)
    requires forall k: nat, a: nat :: k < |m| && a < 3 ==> ColOf(m[k], a) < n
    requires cost == Cost(es, nodes, sqrt)
    ensures Pinned(start, trial, g, g.dim)
    ensures next == Cost(es, trial, sqrt)
    ensures !ok ==> next == cost
    ensures (!ok || next >= cost) && lambda == Raised(k) ==> !Promising(es, nodes, m, sqrt, n)(k)
  {
    var step;
    ok, trial, step := Trial(es, nodes, m, n, lambda, sqrt);
    if !ok { return false, trial, cost; }
    StepIsPinned(start, nodes, g, g.dim, step);
    next := CostOf(es, trial, sqrt);
  }

  function Lowered(lambda: real): real {
    var l := lambda * 0.1;
    if l < 0.000000000001 then 0.000000000001 else l
  }

  /** How much the cost fell, in proportion to what it was. */
  function Gain(cost: real, next: real): real
    requires cost >= 0.0
  {
    (cost - next) / (cost + T3.EPS)
  }

  /** What one round leaves: whether the loop has improved the fit, or is still at the start with
      no promising damping passed over. */
  ghost predicate Round(es: seq<Edge>, start: seq<NodeOut>, nodes: seq<NodeOut>, m: seq<Cols>, n: nat, sqrt: real -> real,
                        before: real, cost: real, lambda: real, it: nat)
    requires |m| == |start|
  {
    && before == Cost(es, start, sqrt) && cost == Cost(es, nodes, sqrt) <= before && (cost < before || nodes == start)
    && Descending(cost < before, Promising(es, start, m, sqrt, n), lambda, it)
  }

  method TryRound(es: seq<Edge>, nodes: seq<NodeOut>, m: seq<Cols>, n: nat, lambda: real, cost: real,
                  ghost start: seq<NodeOut>, ghost g: Gauge, ghost before: real, ghost it: nat, sqrt: real -> real)
    returns (now: seq<NodeOut>, damping: real, left: real, stop: bool)
    requires Pinned(start, nodes, g, g.dim) && (m, n) == Map(start, g, g.dim) && |m| == |nodes| && n <= MAX_COLS && Injective(m)
    requires forall k: nat, a: nat :: k < |m| && a < 3 ==> ColOf(m[k], a) < n
    requires Round(es, start, nodes, m, n, sqrt, before, cost, lambda, it) && (cost < before || it <= LAST_RAISE)
    ensures Pinned(start, now, g, g.dim) && Round(es, start, now, m, n, sqrt, before, left, damping, it + 1)
    ensures left < before || (stop <==> it + 1 > LAST_RAISE)
  {
    var ok, trial, next := TryStep(es, nodes, m, n, lambda, cost, start, g, it, sqrt);
    if ok && next < cost {
      var gain := Gain(cost, next);
      return trial, Lowered(lambda), next, gain < 0.000000001;
    }
    RejectedRound(cost < before, Promising(es, start, m, sqrt, n), lambda, it);
    return nodes, lambda * 10.0, cost, lambda * 10.0 > LAMBDA_MAX;
  }

  /** The damped least-squares loop: at most MAX_ITER rounds, each keeping its step only if the
      cost falls. */
  method DescendFrom(es: seq<Edge>, start: seq<NodeOut>, ghost g: Gauge, m: seq<Cols>, n: nat, sqrt: real -> real)
    returns (nodes: seq<NodeOut>, ghost before: real, ghost cost: real, ghost lambda: real, ghost it: nat)
    requires (m, n) == Map(start, g, g.dim) && |m| == |start| && n <= MAX_COLS && Injective(m)
    requires forall k: nat, a: nat :: k < |m| && a < 3 ==> ColOf(m[k], a) < n
    ensures Pinned(start, nodes, g, g.dim)
    ensures Round(es, start, nodes, m, n, sqrt, before, cost, lambda, it) && (cost < before || it > LAST_RAISE)
  {
    PinnedRefl(start, g, g.dim);
    nodes := start;
    var damping := 0.001;
    var left := CostOf(es, nodes, sqrt);
    before, cost, lambda, it := left, left, damping, 0;
    var round := 0;
    while round < MAX_ITER
      invariant Pinned(start, nodes, g, g.dim) && cost == left && lambda == damping && it == round
      invariant Round(es, start, nodes, m, n, sqrt, before, cost, lambda, it)
      invariant cost < before || it <= LAST_RAISE
    {
      var stop;
      nodes, damping, left, stop := TryRound(es, nodes, m, n, damping, left, start, g, before, it, sqrt);
      round := round + 1;
      cost, lambda, it := left, damping, round;
      if stop { break; }
    }
  }

  /** The loop improves the fit whenever one of the dampings it reaches would. */
  method Descend(es: seq<Edge>, start: seq<NodeOut>, g: Gauge, m: seq<Cols>, n: nat, sqrt: real -> real) returns (nodes: seq<NodeOut>)
    requires (m, n) == Map(start, g, g.dim) && n <= MAX_COLS
    ensures Pinned(start, nodes, g, g.dim)
    ensures nodes == start || Cost(es, nodes, sqrt) < Cost(es, start, sqrt)
    ensures CanImprove(es, start, g, sqrt) ==> Cost(es, nodes, sqrt) < Cost(es, start, sqrt)
  {
    MapNumbers(start, g, g.dim, |start|);
    ghost var before, cost, lambda, it;
    nodes, before, cost, lambda, it := DescendFrom(es, start, g, m, n, sqrt);
    NothingPromised(es, start, nodes, g, m, n, sqrt, before, cost, lambda, it);
  }

  lemma NothingPromised(es: seq<Edge>, start: seq<NodeOut>, nodes: seq<NodeOut>, g: Gauge, m: seq<Cols>, n: nat, sqrt: real -> real,
                        before: real, cost: real, lambda: real, it: nat)
    requires (m, n) == Map(start, g, g.dim) && |m| == |start|
    requires Round(es, start, nodes, m, n, sqrt, before, cost, lambda, it) && (cost < before || it > LAST_RAISE)
    ensures nodes == start || Cost(es, nodes, sqrt) < Cost(es, start, sqrt)
    ensures CanImprove(es, start, g, sqrt) ==> Cost(es, nodes, sqrt) < Cost(es, start, sqrt)
  {}

  // ---- Diagnostics ----

  /** (sum of squared residuals, number of usable edges). */
  function ResidualSum(es: seq<Edge>, nodes: seq<NodeOut>, sqrt: real -> real): (real, nat) {
    if es == [] then (0.0, 0)
    else
      var (sum, used) := ResidualSum(es[..|es| - 1], nodes, sqrt);
      var e := es[|es| - 1];
      if UsableEdge(e, nodes) then (sum + Sq(Residual(e, nodes, sqrt)), used + 1) else (sum, used)
  }

  /** The root of the mean squared residual. */
  function Rms(es: seq<Edge>, nodes: seq<NodeOut>, sqrt: real -> real): real {
    var (sum, used) := ResidualSum(es, nodes, sqrt);
    if used == 0 then 0.0 else sqrt(sum / (used as real))
  }

  ghost predicate IsWorst(es: seq<Edge>, nodes: seq<NodeOut>, sqrt: real -> real, worst: real) {
    && worst >= 0.0
    && (forall e :: e in es && UsableEdge(e, nodes) ==> Abs(Residual(e, nodes, sqrt)) <= worst)
    && (worst == 0.0 || exists e :: e in es && UsableEdge(e, nodes) && Abs(Residual(e, nodes, sqrt)) == worst)
  }

  method Diagnose(es: seq<Edge>, nodes: seq<NodeOut>, sqrt: real -> real) returns (rms: real, worst: real)
    ensures rms == Rms(es, nodes, sqrt)
    ensures IsWorst(es, nodes, sqrt, worst)
  {
    var sum, used := 0.0, 0;
    worst := 0.0;
    for k := 0 to |es|
      invariant (sum, used) == ResidualSum(es[..k], nodes, sqrt)
      invariant IsWorst(es[..k], nodes, sqrt, worst)
    {
      assert es[..k + 1][..k] == es[..k] && es[..k + 1] == es[..k] + [es[k]];
      if UsableEdge(es[k], nodes) {
        var res := Residual(es[k], nodes, sqrt);
        sum, used := sum + Sq(res), used + 1;
        if Abs(res) > worst { worst := Abs(res); }
      }
    }
    assert es[..|es|] == es;
    rms := if used == 0 then 0.0 else sqrt(sum / (used as real));
  }

  method CountUsable(es: seq<Edge>, nodes: seq<NodeOut>) returns (usable: nat)
    ensures usable == 0 <==> forall e :: e in es ==> !UsableEdge(e, nodes)
  {
    usable := 0;
    for k := 0 to |es|
      invariant usable == 0 <==> forall j :: 0 <= j < k ==> !UsableEdge(es[j], nodes)
    {
      if UsableEdge(es[k], nodes) { usable := usable + 1; }
    }
  }

  // ---- Refining and solving a layout in place ----

  /** What a refined layout is, against the one it started from. */
  ghost predicate Refined(es: seq<Edge>, before: seq<NodeOut>, after: seq<NodeOut>, g: Gauge, sqrt: real -> real) {
    Pinned(before, after, g, g.dim) && (after == before || Cost(es, after, sqrt) < Cost(es, before, sqrt))
  }

  lemma StatesKeepCounts(before: seq<NodeOut>, after: seq<NodeOut>)
    requires |before| == |after| && forall k :: 0 <= k < |before| ==> before[k].state == after[k].state
    ensures PlacedSet(before) == PlacedSet(after) && AmbiguousSet(before) == AmbiguousSet(after)
  {}

  /** The refined layout, or the same one when it has no free coordinate. */
  method RefineNodes(es: seq<Edge>, start: seq<NodeOut>, g: Gauge, sqrt: real -> real) returns (nodes: seq<NodeOut>)
    requires |start| <= MAX_NODES
    ensures Refined(es, start, nodes, g, sqrt)
    ensures CanImprove(es, start, g, sqrt) ==> Cost(es, nodes, sqrt) < Cost(es, start, sqrt)
  {
    var m, n := BuildMap(start, g, g.dim);
    PinnedRefl(start, g, g.dim);
    if n == 0 { return start; }
    ColumnsAtMost(start, g, g.dim, |start|);
    nodes := Descend(es, start, g, m, n, sqrt);
  }

  method Refine(lay: Layout, es: seq<Edge>, g: Gauge, sqrt: real -> real) returns (code: SolveCode)
    requires lay.Counted() && |lay.nodes| <= MAX_NODES
    modifies lay
    ensures code == BadGauge <==> !GaugeValid(g, old(|lay.nodes|))
    ensures code == NoData <==> GaugeValid(g, old(|lay.nodes|)) && forall e :: e in es ==> !UsableEdge(e, old(lay.nodes))
    ensures code != Ok ==> lay.nodes == old(lay.nodes)
    ensures code == Ok ==> Refined(es, old(lay.nodes), lay.nodes, g, sqrt) && lay.dim == g.dim
    ensures code == Ok && CanImprove(es, old(lay.nodes), g, sqrt) ==> Cost(es, lay.nodes, sqrt) < Cost(es, old(lay.nodes), sqrt)
    ensures code == Ok ==> IsWorst(es, lay.nodes, sqrt, lay.worst)
    ensures code == Ok ==> lay.rms == Rms(es, lay.nodes, sqrt)
    ensures lay.Counted()
  {
    if !GaugeValid(g, |lay.nodes|) { return BadGauge; }
    lay.dim := g.dim;
    var usable := CountUsable(es, lay.nodes);
    if usable == 0 { return NoData; }
    var nodes := RefineNodes(es, lay.nodes, g, sqrt);
    StatesKeepCounts(lay.nodes, nodes);
    lay.nodes := nodes;
    var rms, worst := Diagnose(es, lay.nodes, sqrt);
    lay.rms, lay.worst := rms, worst;
    return Ok;
  }

  lemma {:induction false} ColumnsAtMost(nodes: seq<NodeOut>, g: Gauge, dim: Dim, n: nat)
    requires n <= |nodes|
    ensures MapUpto(nodes, g, dim, n).1 <= 3 * n
  {
    if n > 0 { ColumnsAtMost(nodes, g, dim, n - 1); }
  }

  /** The gauge is still where it was defined to be, nothing unplaced has moved, and a 2D
      survey is still flat. */
  ghost predicate GaugeHolds(nodes: seq<NodeOut>, g: Gauge)
    requires GaugeValid(g, |nodes|)
  {
    && (forall k :: k in GaugeNodes(g) ==> IsPlaced(nodes[k]))
    && nodes[g.origin].at == ORIGIN
    && nodes[g.xaxis].at.y == 0.0 && nodes[g.xaxis].at.z == 0.0
    && nodes[g.plane].at.z == 0.0
    && (forall k :: 0 <= k < |nodes| && !IsPlaced(nodes[k]) ==> nodes[k] == BLANK)
    && (g.dim == Dim2 ==> Level(nodes))
  }

  lemma RefinedKeepsGauge(es: seq<Edge>, n: nat, g: Gauge, after: seq<NodeOut>, sqrt: real -> real)
    requires GaugeValid(g, n) && SeedOf(es, n, g, sqrt).Some? && Refined(es, SeedOf(es, n, g, sqrt).value, after, g, sqrt)
    ensures |after| == n && GaugeHolds(after, g)
    ensures Cost(es, after, sqrt) <= Cost(es, SeedOf(es, n, g, sqrt).value, sqrt)
    ensures Map(after, g, g.dim).1 == FreeParams(g.dim, |PlacedSet(after)|) <= 18
  {
    GaugeLayoutIs(es, n, g, sqrt);
    var first, last := GaugeLayout(es, n, g, sqrt).value, SeedOf(es, n, g, sqrt).value;
    var turns := SeedExplained(es, n, g, sqrt);
    assert forall k :: 0 <= k < n && k in GaugeNodes(g) ==> last[k] == first[k];
    assert forall k :: 0 <= k < n && !IsPlaced(last[k]) ==> last[k] == BLANK;
    PinnedKeepsGauge(last, after, g);
    MapIsBijection(after, g, g.dim);
  }

  lemma PinnedKeepsGauge(last: seq<NodeOut>, after: seq<NodeOut>, g: Gauge)
    requires GaugeValid(g, |last|) && GaugeHolds(last, g) && Pinned(last, after, g, g.dim)
    ensures |after| == |last| && GaugeHolds(after, g)
    ensures IsPlaced(after[g.origin]) && IsPlaced(after[g.xaxis]) && IsPlaced(after[g.plane])
  {}

  lemma {:induction false} MeasuredEdge(es: seq<Edge>, a: nat, b: nat)
    requires EdgeLength(es, a, b) > 0.0
    ensures exists e :: e in es && Joins(e, a, b)
  {
    if Joins(es[0], a, b) {
      assert es[0] in es;
    } else {
      MeasuredEdge(es[1..], a, b);
      var e :| e in es[1..] && Joins(e, a, b);
      assert e in es;
    }
  }

  /** After seeding, the measured edge from origin to xaxis can be used. */
  lemma SeedHasUsableEdge(es: seq<Edge>, n: nat, g: Gauge, sqrt: real -> real)
    requires GaugeValid(g, n) && SeedOf(es, n, g, sqrt).Some?
    ensures exists e :: e in es && UsableEdge(e, SeedOf(es, n, g, sqrt).value)
  {
    GaugeLayoutIs(es, n, g, sqrt);
    var turns := SeedExplained(es, n, g, sqrt);
    MeasuredEdge(es, g.origin, g.xaxis);
    var e :| e in es && Joins(e, g.origin, g.xaxis);
    assert g.origin in GaugeNodes(g) && g.xaxis in GaugeNodes(g);
    assert UsableEdge(e, SeedOf(es, n, g, sqrt).value);
  }

  /** Seeds a layout of n nodes and refines it. */
  method Solve(lay: Layout, es: seq<Edge>, n: nat, g: Gauge, sqrt: real -> real) returns (code: SolveCode)
    requires lay.Counted()
    modifies lay
    ensures code == BadGauge <==> !GaugeValid(g, n)
    ensures code == Ok <==> GaugeValid(g, n) && SeedOf(es, n, g, sqrt).Some?
    ensures code == Ok ==> |lay.nodes| == n && lay.dim == g.dim && lay.Counted()
    ensures code == Ok ==> Refined(es, SeedOf(es, n, g, sqrt).value, lay.nodes, g, sqrt) && GaugeHolds(lay.nodes, g)
    ensures code == Ok && CanImprove(es, SeedOf(es, n, g, sqrt).value, g, sqrt) ==>
      Cost(es, lay.nodes, sqrt) < Cost(es, SeedOf(es, n, g, sqrt).value, sqrt)
    ensures code == Ok ==> IsWorst(es, lay.nodes, sqrt, lay.worst) && lay.rms == Rms(es, lay.nodes, sqrt)
  {
    code := lay.Seed(es, n, g, sqrt);
    if code != Ok { return; }
    SeedHasUsableEdge(es, n, g, sqrt);
    code := Refine(lay, es, g, sqrt);
    RefinedKeepsGauge(es, n, g, lay.nodes, sqrt);
  }
}
