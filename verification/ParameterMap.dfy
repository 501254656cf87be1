/** Which coordinates the refinement may move, numbered: the gauge is pinned by leaving its
    coordinates out. */
module ParameterMap {
  import opened SurveyFit
  import opened Seeding
  import opened SurveyLayout

  /** Column of each coordinate of a node; -1 when it is fixed. */
  datatype Cols = Cols(x: int, y: int, z: int)

  function ColOf(c: Cols, axis: nat): int { if axis == 0 then c.x else if axis == 1 then c.y else c.z }

  /** The coordinates left free by the gauge. */
  predicate Free(nodes: seq<NodeOut>, g: Gauge, dim: Dim, k: nat, axis: nat)
    requires k < |nodes|
  {
    && IsPlaced(nodes[k]) && k != g.origin
    && (axis >= 1 ==> k != g.xaxis)
    && (axis >= 2 ==> k != g.plane && dim != Dim2)
  }

  /** The map of the first n nodes, and how many columns it uses. */
  function MapUpto(nodes: seq<NodeOut>, g: Gauge, dim: Dim, n: nat): (r: (seq<Cols>, nat))
    requires n <= |nodes|
    ensures |r.0| == n
  {
    if n == 0 then ([], 0)
    else
      var (m, p) := MapUpto(nodes, g, dim, n - 1);
      var k := n - 1;
      if !Free(nodes, g, dim, k, 0) then (m + [Cols(-1, -1, -1)], p)
      else if !Free(nodes, g, dim, k, 1) then (m + [Cols(p, -1, -1)], p + 1)
      else if !Free(nodes, g, dim, k, 2) then (m + [Cols(p, p + 1, -1)], p + 2)
      else (m + [Cols(p, p + 1, p + 2)], p + 3)
  }

  function Map(nodes: seq<NodeOut>, g: Gauge, dim: Dim): (seq<Cols>, nat) { MapUpto(nodes, g, dim, |nodes|) }

  /** Free parameters of a fit: two or three per placed node, less what the gauge pins. */
  function FreeParams(dim: Dim, placed: nat): int { if dim == Dim2 then 2 * placed - 3 else 3 * placed - 6 }

  method BuildMap(nodes: seq<NodeOut>, g: Gauge, dim: Dim) returns (m: seq<Cols>, p: nat)
    ensures (m, p) == Map(nodes, g, dim)
  {
    m, p := [], 0;
    for k := 0 to |nodes|
      invariant (m, p) == MapUpto(nodes, g, dim, k)
    {
      if !IsPlaced(nodes[k]) || k == g.origin {
        m := m + [Cols(-1, -1, -1)];
      } else if k == g.xaxis {
        m, p := m + [Cols(p, -1, -1)], p + 1;
      } else if k == g.plane || dim == Dim2 {
        m, p := m + [Cols(p, p + 1, -1)], p + 2;
      } else {
        m, p := m + [Cols(p, p + 1, p + 2)], p + 3;
      }
    }
  }

  // ---- The map is a bijection between the free coordinates and [0, p) ----

  ghost predicate Injective(m: seq<Cols>) {
    forall k: nat, l: nat, a: nat, b: nat :: (k < |m| && l < |m| && a < 3 && b < 3 && ColOf(m[k], a) == ColOf(m[l], b) >= 0)
      ==> k == l && a == b
  }

  ghost predicate Hits(m: seq<Cols>, v: int) { exists k: nat, a: nat :: k < |m| && a < 3 && ColOf(m[k], a) == v }

  ghost predicate Numbers(nodes: seq<NodeOut>, g: Gauge, dim: Dim, m: seq<Cols>, p: nat) {
    && |m| <= |nodes|
    && (forall k: nat, a: nat :: k < |m| && a < 3 ==>
        -1 <= ColOf(m[k], a) < p && (ColOf(m[k], a) >= 0 <==> Free(nodes, g, dim, k, a)))
    && Injective(m)
    && (forall v :: 0 <= v < p ==> Hits(m, v))
  }

  lemma AppendInjective(m: seq<Cols>, p: nat, c: Cols, q: nat)
    requires Injective(m) && forall k: nat, a: nat :: k < |m| && a < 3 ==> ColOf(m[k], a) < p
    requires c == Cols(if q > p then p else -1, if q > p + 1 then p + 1 else -1, if q > p + 2 then p + 2 else -1)
    ensures Injective(m + [c])
  {}

  lemma Append(nodes: seq<NodeOut>, g: Gauge, dim: Dim, m: seq<Cols>, p: nat, c: Cols, q: nat)
    requires Numbers(nodes, g, dim, m, p) && |m| < |nodes| && p <= q <= p + 3
    requires c == Cols(if q > p then p else -1, if q > p + 1 then p + 1 else -1, if q > p + 2 then p + 2 else -1)
    requires forall a: nat :: a < 3 ==> (ColOf(c, a) >= 0 <==> Free(nodes, g, dim, |m|, a))
    ensures Numbers(nodes, g, dim, m + [c], q)
  {
    var m' := m + [c];
    assert Injective(m') by { AppendInjective(m, p, c, q); }
    forall v | 0 <= v < q ensures Hits(m', v) {
      if v < p {
        assert Hits(m, v);
        var k: nat, a: nat :| k < |m| && a < 3 && ColOf(m[k], a) == v;
        assert ColOf(m'[k], a) == v;
      } else {
        assert ColOf(m'[|m|], v - p) == v;
      }
    }
  }

  /** A free coordinate frees the ones before it, so a node's columns are consecutive. */
  lemma FreeAxes(nodes: seq<NodeOut>, g: Gauge, dim: Dim, k: nat, c: Cols, p: nat, q: nat)
    requires k < |nodes| && (c, q) ==
      if !Free(nodes, g, dim, k, 0) then (Cols(-1, -1, -1), p)
      else if !Free(nodes, g, dim, k, 1) then (Cols(p, -1, -1), p + 1)
      else if !Free(nodes, g, dim, k, 2) then (Cols(p, p + 1, -1), p + 2)
      else (Cols(p, p + 1, p + 2), p + 3)
    ensures forall a: nat :: a < 3 ==> (ColOf(c, a) >= 0 <==> Free(nodes, g, dim, k, a))
  {
    forall a: nat | a < 3 ensures ColOf(c, a) >= 0 <==> Free(nodes, g, dim, k, a) {
      assert a == 0 || a == 1 || a == 2;
    }
  }

  lemma {:induction false} MapNumbers(nodes: seq<NodeOut>, g: Gauge, dim: Dim, n: nat)
    requires n <= |nodes|
    ensures var (m, p) := MapUpto(nodes, g, dim, n); Numbers(nodes, g, dim, m, p)
  {
    if n > 0 {
      MapNumbers(nodes, g, dim, n - 1);
      var (m, p) := MapUpto(nodes, g, dim, n - 1);
      var (m', p') := MapUpto(nodes, g, dim, n);
      var c := m'[n - 1];
      FreeAxes(nodes, g, dim, n - 1, c, p, p');
      Append(nodes, g, dim, m, p, c, p');
    }
  }

  ghost function PlacedBelow(nodes: seq<NodeOut>, n: nat): set<nat>
    requires n <= |nodes|
  {
    set k | 0 <= k < n && IsPlaced(nodes[k])
  }

  function One(b: bool): nat { if b then 1 else 0 }

  lemma PlacedBelowStep(nodes: seq<NodeOut>, k: nat)
    requires k < |nodes|
    ensures |PlacedBelow(nodes, k + 1)| == |PlacedBelow(nodes, k)| + One(IsPlaced(nodes[k]))
  {
    assert PlacedBelow(nodes, k + 1) == PlacedBelow(nodes, k) + (if IsPlaced(nodes[k]) then {k} else {});
  }

  /** Columns of the first n nodes, by formula. */
  ghost function Columns(g: Gauge, dim: Dim, placed: nat, n: nat): int {
    if dim == Dim2 then 2 * placed - 2 * One(g.origin < n) - One(g.xaxis < n)
    else 3 * placed - 3 * One(g.origin < n) - 2 * One(g.xaxis < n) - One(g.plane < n)
  }

  function FreeCount(nodes: seq<NodeOut>, g: Gauge, dim: Dim, k: nat): nat
    requires k < |nodes|
  {
    if !Free(nodes, g, dim, k, 0) then 0 else if !Free(nodes, g, dim, k, 1) then 1
    else if !Free(nodes, g, dim, k, 2) then 2 else 3
  }

  lemma ColumnsStep(nodes: seq<NodeOut>, g: Gauge, dim: Dim, k: nat, placed: nat)
    requires k < |nodes| && GaugeValid(g.(dim := dim), |nodes|)
    requires IsPlaced(nodes[g.origin]) && IsPlaced(nodes[g.xaxis]) && IsPlaced(nodes[g.plane])
    ensures Columns(g, dim, placed + One(IsPlaced(nodes[k])), k + 1) == Columns(g, dim, placed, k) + FreeCount(nodes, g, dim, k)
  {}

  lemma {:induction false} ColumnsUpto(nodes: seq<NodeOut>, g: Gauge, dim: Dim, n: nat)
    requires n <= |nodes| && GaugeValid(g.(dim := dim), |nodes|)
    requires IsPlaced(nodes[g.origin]) && IsPlaced(nodes[g.xaxis]) && IsPlaced(nodes[g.plane])
    ensures MapUpto(nodes, g, dim, n).1 == Columns(g, dim, |PlacedBelow(nodes, n)|, n)
  {
    if n > 0 {
      var k := n - 1;
      ColumnsUpto(nodes, g, dim, k);
      PlacedBelowStep(nodes, k);
      ColumnsStep(nodes, g, dim, k, |PlacedBelow(nodes, k)|);
      assert MapUpto(nodes, g, dim, n).1 == MapUpto(nodes, g, dim, k).1 + FreeCount(nodes, g, dim, k);
    }
  }

  /** The columns number exactly the free coordinates, each once; there are as many as the
      formula says, at most eighteen for eight nodes. */
  lemma MapIsBijection(nodes: seq<NodeOut>, g: Gauge, dim: Dim)
    requires GaugeValid(g.(dim := dim), |nodes|)
    requires IsPlaced(nodes[g.origin]) && IsPlaced(nodes[g.xaxis]) && IsPlaced(nodes[g.plane])
    ensures var (m, p) := Map(nodes, g, dim);
      Numbers(nodes, g, dim, m, p) && p == FreeParams(dim, |PlacedSet(nodes)|) <= 18
  {
    MapNumbers(nodes, g, dim, |nodes|);
    ColumnsUpto(nodes, g, dim, |nodes|);
    assert PlacedBelow(nodes, |nodes|) == PlacedSet(nodes);
    PlacedAtMost(nodes, |nodes|);
  }

  lemma {:induction false} PlacedAtMost(nodes: seq<NodeOut>, n: nat)
    requires n <= |nodes|
    ensures |PlacedBelow(nodes, n)| <= n
  {
    if n > 0 {
      PlacedAtMost(nodes, n - 1);
      PlacedBelowStep(nodes, n - 1);
    }
  }

  // ---- Moving along a step ----

  function Shift(x: real, col: int, step: seq<real>): real {
    if 0 <= col < |step| then x + step[col] else x
  }

  function MovedNode(n: NodeOut, c: Cols, step: seq<real>): NodeOut {
    n.(at := Vec(Shift(n.at.x, c.x, step), Shift(n.at.y, c.y, step), Shift(n.at.z, c.z, step)))
  }

  function Moved(nodes: seq<NodeOut>, m: seq<Cols>, step: seq<real>): (r: seq<NodeOut>)
    requires |m| == |nodes|
    ensures |r| == |nodes|
  {
    seq(|nodes|, k requires 0 <= k < |nodes| => MovedNode(nodes[k], m[k], step))
  }

  method ApplyStep(nodes: seq<NodeOut>, m: seq<Cols>, step: array<real>, p: nat) returns (r: seq<NodeOut>)
    requires |m| == |nodes| && p <= step.Length
    requires forall k: nat, a: nat :: k < |m| && a < 3 ==> ColOf(m[k], a) < p
    ensures r == Moved(nodes, m, step[..p])
  {
    r := nodes;
    for k := 0 to |nodes|
      invariant |r| == |nodes| && forall l :: 0 <= l < |nodes| ==>
        r[l] == if l < k then MovedNode(nodes[l], m[l], step[..p]) else nodes[l]
    {
      var c, at := m[k], r[k].at;
      assert ColOf(c, 0) < p && ColOf(c, 1) < p && ColOf(c, 2) < p;
      if c.x >= 0 { at := at.(x := at.x + step[c.x]); }
      if c.y >= 0 { at := at.(y := at.y + step[c.y]); }
      if c.z >= 0 { at := at.(z := at.z + step[c.z]); }
      r := r[k := r[k].(at := at)];
    }
  }

  /** after is before with only free coordinates changed. */
  ghost predicate Pinned(before: seq<NodeOut>, after: seq<NodeOut>, g: Gauge, dim: Dim) {
    && |after| == |before|
    && forall k :: 0 <= k < |before| ==>
      && after[k].state == before[k].state
      && (!IsPlaced(before[k]) || k == g.origin ==> after[k].at == before[k].at)
      && (k == g.xaxis ==> after[k].at.y == before[k].at.y && after[k].at.z == before[k].at.z)
      && (k == g.plane || dim == Dim2 ==> after[k].at.z == before[k].at.z)
  }

  /** A step moves no pinned coordinate, whatever its direction. */
  lemma MovedIsPinned(nodes: seq<NodeOut>, g: Gauge, dim: Dim, step: seq<real>)
    ensures Pinned(nodes, Moved(nodes, Map(nodes, g, dim).0, step), g, dim)
  {
    MapNumbers(nodes, g, dim, |nodes|);
    var m := Map(nodes, g, dim).0;
    forall k | 0 <= k < |nodes|
      ensures !Free(nodes, g, dim, k, 0) ==> m[k].x == -1
      ensures !Free(nodes, g, dim, k, 1) ==> m[k].y == -1
      ensures !Free(nodes, g, dim, k, 2) ==> m[k].z == -1
    {
      assert ColOf(m[k], 0) >= 0 <==> Free(nodes, g, dim, k, 0);
      assert ColOf(m[k], 1) >= 0 <==> Free(nodes, g, dim, k, 1);
      assert ColOf(m[k], 2) >= 0 <==> Free(nodes, g, dim, k, 2);
    }
  }

  lemma PinnedTrans(a: seq<NodeOut>, b: seq<NodeOut>, c: seq<NodeOut>, g: Gauge, dim: Dim)
    requires Pinned(a, b, g, dim) && Pinned(b, c, g, dim)
    ensures Pinned(a, c, g, dim)
  {}
}
