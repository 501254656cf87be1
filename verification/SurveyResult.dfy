/** What the result of a survey is: how it comes from the measurements, what its acceptance
    guarantees, and that exact ranges give the anchors where they are. */
module SurveyResult {
  import opened Options
  import opened SurveyFit
  import opened SurveyTable
  import opened Reals
  import opened Pigeonhole
  import G = Gateway
  import E = SurveyEdges
  import S = Seeding
  import L = SurveyLayout
  import R = Refinement
  import X = ExactSeed
  import T3 = Trilateration

  ghost function EdgesOf(s: G.Gw, sqrt: real -> real): seq<E.Edge>
    requires T3.IsRoot(sqrt)
  {
    E.Edges(s.tbl, G.MIN_N_OK, sqrt)
  }

  /** The table's edges and the gauge are enough to place the gauge. */
  ghost predicate Solvable(s: G.Gw, sqrt: real -> real)
    requires T3.IsRoot(sqrt)
  {
    var n, g := |s.tbl.peers|, G.ResolveGauge(s);
    g.Some? && S.GaugeValid(g.value, n) && S.SeedOf(EdgesOf(s, sqrt), n, g.value, sqrt).Some?
  }

  /** A solver answer is a refinement of the seed of the table's edges in the resolved gauge. */
  ghost predicate Grounded(s: G.Gw, solved: G.Solved, sqrt: real -> real)
    requires T3.IsRoot(sqrt)
  {
    solved.ok ==>
      var n, es, g := |s.tbl.peers|, EdgesOf(s, sqrt), G.ResolveGauge(s);
      && Solvable(s, sqrt)
      && |solved.fit.nodes| == n && solved.fit.dim == g.value.dim
      && R.Refined(es, S.SeedOf(es, n, g.value, sqrt).value, solved.fit.nodes, g.value, sqrt)
      && R.GaugeHolds(solved.fit.nodes, g.value)
      && Diagnosed(es, solved.fit, sqrt)
  }

  // ---- The gauge in the result ----

  lemma FindAddrIs(peers: seq<Peer>, a: nat, k: nat)
    requires DistinctPeers(peers) && k < |peers| && peers[k].addr == a
    ensures FindAddr(peers, a) == Some(k)
  {
    FindAddrOfPeer(peers, k);
  }

  /** A successful answer becomes the result, every placed node lifted by the height offset. */
  lemma ResultIsLifted(s: G.Gw, solved: G.Solved, k: nat)
    requires G.ResolveGauge(s).Some? && solved.ok && k < |solved.fit.nodes|
    ensures var u := G.DoSolve(s, solved);
      && u.haveResult && |u.res.nodes| == |solved.fit.nodes| && u.res.nodes[k].state == solved.fit.nodes[k].state
      && u.res.nodes[k].at == if S.IsPlaced(solved.fit.nodes[k]) then T3.Add(solved.fit.nodes[k].at, Vec(0.0, 0.0, s.zoff)) else solved.fit.nodes[k].at
  {}

  /** Where the resolved gauge is, if the solver kept it. */
  lemma GaugeRows(peers: seq<Peer>, a: G.GaugeAddrs, nodes: seq<NodeOut>, k: nat)
    requires DistinctPeers(peers) && |nodes| == |peers| && k < |peers|
    requires G.Resolved(peers, a).Some? && S.GaugeValid(G.Resolved(peers, a).value, |peers|) && R.GaugeHolds(nodes, G.Resolved(peers, a).value)
    ensures peers[k].addr == G.Addr16(a.origin) ==> S.IsPlaced(nodes[k]) && nodes[k].at == ORIGIN
    ensures peers[k].addr == G.Addr16(a.xaxis) ==> S.IsPlaced(nodes[k]) && nodes[k].at.y == 0.0 && nodes[k].at.z == 0.0
    ensures peers[k].addr == G.Addr16(a.plane) ==> S.IsPlaced(nodes[k]) && nodes[k].at.z == 0.0
    ensures a.up == -1 ==> nodes[k].at.z == 0.0
  {
    if peers[k].addr == G.Addr16(a.origin) { FindAddrIs(peers, G.Addr16(a.origin), k); }
    if peers[k].addr == G.Addr16(a.xaxis) { FindAddrIs(peers, G.Addr16(a.xaxis), k); }
    if peers[k].addr == G.Addr16(a.plane) { FindAddrIs(peers, G.Addr16(a.plane), k); }
  }

  /** After a survey the anchor designated origin is at the height offset over the origin, the
      one designated xaxis is over the x axis, and the one designated plane has the same height;
      in 2D every placed anchor has it. */
  lemma GaugeInResult(s: G.Gw, solved: G.Solved, sqrt: real -> real, k: nat)
    requires T3.IsRoot(sqrt) && G.Inv(s) && Grounded(s, solved, sqrt) && solved.ok && k < |s.tbl.peers|
    ensures var u := G.DoSolve(s, solved);
      && u.haveResult && |u.res.nodes| == |s.tbl.peers|
      && var (addr, at) := (s.tbl.peers[k].addr, u.res.nodes[k].at);
      && (addr == G.Addr16(s.gauge.origin) ==> at == Vec(0.0, 0.0, s.zoff))
      && (addr == G.Addr16(s.gauge.xaxis) ==> at.y == 0.0 && at.z == s.zoff)
      && (addr == G.Addr16(s.gauge.plane) ==> at.z == s.zoff)
      && (s.gauge.up == -1 && S.IsPlaced(u.res.nodes[k]) ==> at.z == s.zoff)
  {
    ResultIsLifted(s, solved, k);
    GaugeRows(s.tbl.peers, s.gauge, solved.fit.nodes, k);
  }

  // ---- What acceptance guarantees ----

  lemma {:induction false} AllOf(a: set<nat>, n: nat)
    requires a <= Upto(n) && |a| == n
    ensures a == Upto(n)
  {
    if k :| k in Upto(n) && k !in a {
      SubsetSize(a + {k}, Upto(n));
    }
  }

  lemma CountedAll(nodes: seq<NodeOut>)
    requires |L.PlacedSet(nodes)| == |nodes|
    ensures forall k :: 0 <= k < |nodes| ==> S.IsPlaced(nodes[k])
  {
    AllOf(L.PlacedSet(nodes), |nodes|);
    forall k | 0 <= k < |nodes| ensures S.IsPlaced(nodes[k]) { assert k in Upto(|nodes|); }
  }

  lemma EveryonePlaced(nodes: seq<NodeOut>)
    ensures |L.PlacedSet(nodes)| == |nodes| <==> forall k :: 0 <= k < |nodes| ==> S.IsPlaced(nodes[k])
  {
    if |L.PlacedSet(nodes)| == |nodes| { CountedAll(nodes); }
    if forall k :: 0 <= k < |nodes| ==> S.IsPlaced(nodes[k]) { assert L.PlacedSet(nodes) == Upto(|nodes|); }
  }

  lemma NobodyGuessed(nodes: seq<NodeOut>)
    ensures |L.AmbiguousSet(nodes)| == 0 <==> forall k :: 0 <= k < |nodes| ==> !nodes[k].state.Ambiguous?
  {
    if |L.AmbiguousSet(nodes)| == 0 {
      forall k | 0 <= k < |nodes| ensures !nodes[k].state.Ambiguous? { assert k !in L.AmbiguousSet(nodes); }
    } else {
      var k :| k in L.AmbiguousSet(nodes);
    }
  }

  /** How much longer the layout makes an edge than it was measured. */
  function Miss(e: E.Edge, nodes: seq<NodeOut>, sqrt: real -> real): real
    requires e.i < |nodes| && e.j < |nodes|
  {
    T3.Norm(T3.Sub(nodes[e.i].at, nodes[e.j].at), sqrt) - e.d
  }

  /** Every edge joins two different nodes. */
  ghost predicate Joined(es: seq<E.Edge>, n: nat) { forall k :: 0 <= k < |es| ==> es[k].i < n && es[k].j < n && es[k].i != es[k].j }

  /** The misses of the first k edges, squared and added up. */
  ghost function SquaredMisses(es: seq<E.Edge>, nodes: seq<NodeOut>, sqrt: real -> real, k: nat): real
    requires Joined(es, |nodes|) && k <= |es|
  {
    if k == 0 then 0.0 else SquaredMisses(es, nodes, sqrt, k - 1) + T3.Sq(Miss(es[k - 1], nodes, sqrt))
  }

  lemma ResidualStep(es: seq<E.Edge>, e: E.Edge, nodes: seq<NodeOut>, sqrt: real -> real, sum: real, used: nat)
    requires R.ResidualSum(es, nodes, sqrt) == (sum, used) && e.i < |nodes| && e.j < |nodes| && e.i != e.j
    requires S.IsPlaced(nodes[e.i]) && S.IsPlaced(nodes[e.j])
    ensures R.ResidualSum(es + [e], nodes, sqrt) == (sum + T3.Sq(Miss(e, nodes, sqrt)), used + 1)
  {
    assert (es + [e])[..|es|] == es;
    assert R.Residual(e, nodes, sqrt) == Miss(e, nodes, sqrt);
    assert R.Sq(Miss(e, nodes, sqrt)) == T3.Sq(Miss(e, nodes, sqrt));
  }

  lemma {:induction false} AllUsed(es: seq<E.Edge>, nodes: seq<NodeOut>, sqrt: real -> real, k: nat)
    requires Joined(es, |nodes|) && k <= |es| && forall k :: 0 <= k < |nodes| ==> S.IsPlaced(nodes[k])
    ensures R.ResidualSum(es[..k], nodes, sqrt) == (SquaredMisses(es, nodes, sqrt, k), k)
  {
    if k > 0 {
      AllUsed(es, nodes, sqrt, k - 1);
      assert es[..k] == es[..k - 1] + [es[k - 1]];
      ResidualStep(es[..k - 1], es[k - 1], nodes, sqrt, SquaredMisses(es, nodes, sqrt, k - 1), k - 1);
    }
  }

  lemma {:induction false} SumIsPositive(es: seq<E.Edge>, nodes: seq<NodeOut>, sqrt: real -> real, k: nat)
    requires Joined(es, |nodes|) && k <= |es|
    ensures SquaredMisses(es, nodes, sqrt, k) >= 0.0
  {
    if k > 0 {
      SumIsPositive(es, nodes, sqrt, k - 1);
      T3.SqPositive(Miss(es[k - 1], nodes, sqrt));
    }
  }

  lemma AllMisses(es: seq<E.Edge>, nodes: seq<NodeOut>, sqrt: real -> real)
    requires Joined(es, |nodes|) && forall k :: 0 <= k < |nodes| ==> S.IsPlaced(nodes[k])
    ensures R.ResidualSum(es, nodes, sqrt) == (SquaredMisses(es, nodes, sqrt, |es|), |es|) && SquaredMisses(es, nodes, sqrt, |es|) >= 0.0
  {
    AllUsed(es, nodes, sqrt, |es|);
    assert es[..|es|] == es;
    SumIsPositive(es, nodes, sqrt, |es|);
  }

  lemma MeanOf(sum: real, k: real, mean: real)
    requires sum >= 0.0 && k > 0.0 && mean == sum / k
    ensures mean >= 0.0 && mean * k == sum
  {}

  lemma RootMean(sum: real, k: real, mean: real, rms: real, sqrt: real -> real)
    requires T3.IsRoot(sqrt) && sum >= 0.0 && k > 0.0 && mean == sum / k && rms == sqrt(mean)
    ensures rms >= 0.0 && (rms * rms) * k == sum
  {
    MeanOf(sum, k, mean);
  }

  // ---- The edges of a table ----

  /** What stands in a table of pairs is an edge of that pair. */
  ghost predicate Tagged(pairs: E.PairTable) { forall a, b :: pairs(a, b).Some? ==> pairs(a, b).value.i == a && pairs(a, b).value.j == b }

  ghost predicate FromPair(n: nat, i: nat, j: nat, pairs: E.PairTable, e: E.Edge) {
    i <= e.i < e.j < n && (e.i == i ==> e.j >= j) && pairs(e.i, e.j) == Some(e)
  }

  ghost predicate AllFromPairs(n: nat, i: nat, j: nat, pairs: E.PairTable, es: seq<E.Edge>) {
    forall k :: 0 <= k < |es| ==> FromPair(n, i, j, pairs, es[k])
  }

  lemma NoRows(n: nat, i: nat, j: nat, pairs: E.PairTable)
    requires i >= n
    ensures AllFromPairs(n, i, j, pairs, E.EdgesFrom(n, i, j, pairs))
  {}

  lemma RowEnds(n: nat, i: nat, j: nat, pairs: E.PairTable, es: seq<E.Edge>)
    requires i < n <= j && AllFromPairs(n, i + 1, i + 2, pairs, es)
    ensures AllFromPairs(n, i, j, pairs, es)
  {}

  lemma RowStarts(n: nat, i: nat, j: nat, pairs: E.PairTable, rest: seq<E.Edge>)
    requires Tagged(pairs) && i < j < n && AllFromPairs(n, i, j + 1, pairs, rest)
    ensures AllFromPairs(n, i, j, pairs, E.Listed(pairs(i, j)) + rest)
  {
    var first := E.Listed(pairs(i, j));
    forall k | 0 <= k < |first + rest| ensures FromPair(n, i, j, pairs, (first + rest)[k]) {
      if k >= |first| { assert (first + rest)[k] == rest[k - |first|]; }
    }
  }

  lemma NextRow(n: nat, i: nat, j: nat, pairs: E.PairTable)
    requires i < n <= j
    ensures E.EdgesFrom(n, i, j, pairs) == E.EdgesFrom(n, i + 1, i + 2, pairs)
  {}

  lemma {:induction false} EdgesFromPairs(n: nat, i: nat, j: nat, pairs: E.PairTable)
    requires Tagged(pairs) && i < j
    ensures AllFromPairs(n, i, j, pairs, E.EdgesFrom(n, i, j, pairs))
    decreases n - i, n - j
  {
    if i >= n {
      NoRows(n, i, j, pairs);
    } else if j >= n {
      var es := E.EdgesFrom(n, i + 1, i + 2, pairs);
      EdgesFromPairs(n, i + 1, i + 2, pairs);
      RowEnds(n, i, j, pairs, es);
      NextRow(n, i, j, pairs);
    } else {
      var rest := E.EdgesFrom(n, i, j + 1, pairs);
      EdgesFromPairs(n, i, j + 1, pairs);
      RowStarts(n, i, j, pairs, rest);
      E.EdgesStep(n, i, j, pairs);
    }
  }

  lemma {:induction false} EdgesAreSimple(n: nat, i: nat, j: nat, pairs: E.PairTable)
    requires Tagged(pairs) && i < j
    ensures X.Simple(E.EdgesFrom(n, i, j, pairs))
    decreases n - i, n - j
  {
    if i < n {
      if j >= n {
        EdgesAreSimple(n, i + 1, i + 2, pairs);
      } else {
        EdgesAreSimple(n, i, j + 1, pairs);
        var rest := E.EdgesFrom(n, i, j + 1, pairs);
        EdgesFromPairs(n, i, j + 1, pairs);
        LaterPairs(n, i, j, pairs, rest);
        E.EdgesStep(n, i, j, pairs);
        if pairs(i, j).Some? { OneMoreEdge(pairs(i, j).value, rest); }
      }
    }
  }

  lemma LaterPairs(n: nat, i: nat, j: nat, pairs: E.PairTable, rest: seq<E.Edge>)
    requires AllFromPairs(n, i, j + 1, pairs, rest)
    ensures forall k :: 0 <= k < |rest| ==> !(rest[k].i == i && rest[k].j == j) && rest[k].i < rest[k].j
  {
    forall k | 0 <= k < |rest| ensures !(rest[k].i == i && rest[k].j == j) && rest[k].i < rest[k].j { assert FromPair(n, i, j + 1, pairs, rest[k]); }
  }

  lemma OneMoreEdge(e: E.Edge, rest: seq<E.Edge>)
    requires X.Simple(rest) && e.i < e.j && forall k :: 0 <= k < |rest| ==> !(rest[k].i == e.i && rest[k].j == e.j) && rest[k].i < rest[k].j
    ensures X.Simple([e] + rest)
  {
    var es := [e] + rest;
    forall a, b | 0 <= a < b < |es| ensures !S.Joins(es[a], es[b].i, es[b].j) {
      assert es[b] == rest[b - 1];
      if a > 0 { assert es[a] == rest[a - 1]; }
    }
  }

  lemma PairsTagged(t: Contents, minOk: nat, sqrt: real -> real)
    requires T3.IsRoot(sqrt)
    ensures Tagged(E.PairEdges(t, minOk, E.MergeWith(sqrt)))
  {
    var pairs := E.PairEdges(t, minOk, E.MergeWith(sqrt));
    forall a, b | pairs(a, b).Some? ensures pairs(a, b).value.i == a && pairs(a, b).value.j == b { E.PairEdgesAre(t, a, b, minOk, sqrt); }
  }

  /** The edges of a table join different peers, each pair once. */
  lemma TableEdges(t: Contents, minOk: nat, sqrt: real -> real)
    requires T3.IsRoot(sqrt)
    ensures Joined(E.Edges(t, minOk, sqrt), |t.peers|) && X.Simple(E.Edges(t, minOk, sqrt))
  {
    var pairs, es := E.PairEdges(t, minOk, E.MergeWith(sqrt)), E.Edges(t, minOk, sqrt);
    PairsTagged(t, minOk, sqrt);
    EdgesAreSimple(|t.peers|, 0, 1, pairs);
    EdgesFromPairs(|t.peers|, 0, 1, pairs);
    forall k | 0 <= k < |es| ensures es[k].i < |t.peers| && es[k].j < |t.peers| && es[k].i != es[k].j {
      assert FromPair(|t.peers|, 0, 1, pairs, es[k]);
    }
  }

  // ---- An accepted survey ----

  lemma LiftedSub(a: Vec, b: Vec, c: Vec)
    ensures T3.Sub(T3.Add(a, c), T3.Add(b, c)) == T3.Sub(a, b)
  {}

  lemma LiftKeepsMiss(s: G.Gw, solved: G.Solved, e: E.Edge, sqrt: real -> real)
    requires G.ResolveGauge(s).Some? && solved.ok && e.i < |solved.fit.nodes| && e.j < |solved.fit.nodes|
    requires S.IsPlaced(solved.fit.nodes[e.i]) && S.IsPlaced(solved.fit.nodes[e.j])
    ensures var u := G.DoSolve(s, solved);
      |u.res.nodes| == |solved.fit.nodes| && Miss(e, u.res.nodes, sqrt) == Miss(e, solved.fit.nodes, sqrt)
  {
    ResultIsLifted(s, solved, e.i);
    ResultIsLifted(s, solved, e.j);
    LiftedSub(solved.fit.nodes[e.i].at, solved.fit.nodes[e.j].at, Vec(0.0, 0.0, s.zoff));
  }

  lemma WorstIs(es: seq<E.Edge>, nodes: seq<NodeOut>, sqrt: real -> real, worst: real, bound: real)
    requires Joined(es, |nodes|) && (forall k :: 0 <= k < |nodes| ==> S.IsPlaced(nodes[k])) && R.IsWorst(es, nodes, sqrt, worst) && bound >= 0.0
    ensures worst <= bound <==> forall k :: 0 <= k < |es| ==> Abs(Miss(es[k], nodes, sqrt)) <= bound
  {
    forall k | 0 <= k < |es| ensures R.UsableEdge(es[k], nodes) && R.Residual(es[k], nodes, sqrt) == Miss(es[k], nodes, sqrt) { assert es[k] in es; }
    if worst > bound {
      var e :| e in es && R.UsableEdge(e, nodes) && Abs(R.Residual(e, nodes, sqrt)) == worst;
      var k :| 0 <= k < |es| && es[k] == e;
      assert Abs(Miss(es[k], nodes, sqrt)) == worst;
    } else {
      forall k | 0 <= k < |es| ensures Abs(Miss(es[k], nodes, sqrt)) <= bound { assert es[k] in es; }
    }
  }

  lemma NotEmpty(es: seq<E.Edge>, n: nat, g: Gauge, sqrt: real -> real)
    requires S.GaugeValid(g, n) && S.SeedOf(es, n, g, sqrt).Some?
    ensures es != []
  {}

  /** The root of the mean of n squares of that sum. */
  predicate IsRootMean(rms: real, n: nat, sum: real) { rms >= 0.0 && (rms * rms) * (n as real) == sum }

  /** Every anchor was placed without guessing, the misses of the edges have a root mean square
      below 50 mm, and none is beyond three times that plus 50 mm. */
  ghost predicate FitsWell(es: seq<E.Edge>, nodes: seq<NodeOut>, rms: real, sqrt: real -> real)
    requires Joined(es, |nodes|)
  {
    && (forall k :: 0 <= k < |nodes| ==> nodes[k].state == Placed)
    && IsRootMean(rms, |es|, SquaredMisses(es, nodes, sqrt, |es|)) && rms * 1000.0 < 50.0
    && (forall k :: 0 <= k < |es| ==> Abs(Miss(es[k], nodes, sqrt)) <= 3.0 * rms + 0.05)
  }

  ghost predicate Judged(f: Fit) {
    f.nPlaced == |f.nodes| && f.nAmbiguous == 0 && f.rms * 1000.0 < 50.0 && f.worst <= 3.0 * f.rms + 0.05
  }

  ghost predicate Diagnosed(es: seq<E.Edge>, f: Fit, sqrt: real -> real) {
    && R.IsWorst(es, f.nodes, sqrt, f.worst) && f.rms == R.Rms(es, f.nodes, sqrt)
    && f.nPlaced == |L.PlacedSet(f.nodes)| && f.nAmbiguous == |L.AmbiguousSet(f.nodes)|
  }

  lemma RmsIs(es: seq<E.Edge>, nodes: seq<NodeOut>, rms: real, sqrt: real -> real)
    requires Joined(es, |nodes|) && es != [] && rms == R.Rms(es, nodes, sqrt) && forall k :: 0 <= k < |nodes| ==> S.IsPlaced(nodes[k])
    ensures rms == sqrt(SquaredMisses(es, nodes, sqrt, |es|) / (|es| as real))
  {
    AllMisses(es, nodes, sqrt);
  }

  lemma {:induction false} RmsMeans(es: seq<E.Edge>, nodes: seq<NodeOut>, rms: real, sqrt: real -> real)
    requires T3.IsRoot(sqrt) && Joined(es, |nodes|) && es != []
    requires rms == sqrt(SquaredMisses(es, nodes, sqrt, |es|) / (|es| as real))
    ensures IsRootMean(rms, |es|, SquaredMisses(es, nodes, sqrt, |es|))
  {
    var total := SquaredMisses(es, nodes, sqrt, |es|);
    SumIsPositive(es, nodes, sqrt, |es|);
    RootMean(total, |es| as real, total / (|es| as real), rms, sqrt);
  }

  lemma AllSure(nodes: seq<NodeOut>)
    ensures |L.PlacedSet(nodes)| == |nodes| && |L.AmbiguousSet(nodes)| == 0 <==> forall k :: 0 <= k < |nodes| ==> nodes[k].state == Placed
  {
    EveryonePlaced(nodes);
    NobodyGuessed(nodes);
  }

  lemma {:induction false} JudgedMeans(es: seq<E.Edge>, f: Fit, sqrt: real -> real)
    requires T3.IsRoot(sqrt) && Joined(es, |f.nodes|) && es != [] && Diagnosed(es, f, sqrt)
    ensures Judged(f) <==> FitsWell(es, f.nodes, f.rms, sqrt)
  {
    AllSure(f.nodes);
    if forall k :: 0 <= k < |f.nodes| ==> f.nodes[k].state == Placed {
      RmsIs(es, f.nodes, f.rms, sqrt);
      RmsMeans(es, f.nodes, f.rms, sqrt);
      WorstIs(es, f.nodes, sqrt, f.worst, 3.0 * f.rms + 0.05);
    }
  }

  /** A result is accepted exactly when it fits well. */
  lemma AcceptedMeans(s: G.Gw, solved: G.Solved, sqrt: real -> real)
    requires T3.IsRoot(sqrt) && G.Inv(s) && Grounded(s, solved, sqrt) && solved.ok
    ensures var es, fit := EdgesOf(s, sqrt), solved.fit;
      Joined(es, |fit.nodes|) && es != [] && (G.DoSolve(s, solved).accepted <==> FitsWell(es, fit.nodes, fit.rms, sqrt))
  {
    TableEdges(s.tbl, G.MIN_N_OK, sqrt);
    NotEmpty(EdgesOf(s, sqrt), |s.tbl.peers|, G.ResolveGauge(s).value, sqrt);
    JudgedBeforeLift(s, solved);
    JudgedMeans(EdgesOf(s, sqrt), solved.fit, sqrt);
  }

  /** The height offset plays no part in the judgement. */
  lemma JudgedBeforeLift(s: G.Gw, solved: G.Solved)
    requires G.ResolveGauge(s).Some? && solved.ok
    ensures G.DoSolve(s, solved).haveResult && (G.DoSolve(s, solved).accepted <==> Judged(solved.fit))
  {}

  // ---- Exact ranges ----

  /** Every measurement that counts is the distance between its two anchors. */
  ghost predicate ExactTable(t: Contents, truth: seq<Vec>, minOk: nat) {
    |truth| == |t.peers| && forall m :: m in t.meas && m.nOk >= minOk && m.mean > 0 ==>
      m.from < |truth| && m.to < |truth| && T3.Dist2(truth[m.from], truth[m.to]) == T3.Sq(m.mean as real / 1000.0)
  }

  lemma SameLength(a: real, b: real, x: real)
    requires a > 0.0 && b > 0.0 && x == T3.Sq(a) == T3.Sq(b)
    ensures a == b
  {
    X.PositiveRoot(a, b);
  }

  lemma PairIsExact(t: Contents, truth: seq<Vec>, minOk: nat, i: nat, j: nat, sqrt: real -> real)
    requires T3.IsRoot(sqrt) && ExactTable(t, truth, minOk) && i < |truth| && j < |truth|
    ensures var e := E.PairEdges(t, minOk, E.MergeWith(sqrt))(i, j);
      e.Some? ==> e.value.d >= 0.0 && T3.Dist2(truth[i], truth[j]) == T3.Sq(e.value.d)
  {
    var f, r := E.FindMeas(t.meas, i, j, minOk), E.FindMeas(t.meas, j, i, minOk);
    E.EdgeBounds(t, i, j, minOk, sqrt);
    X.DistanceSymmetric(truth[i], truth[j]);
    if f.Some? && r.Some? { SameLength(E.Metres(f.value.mean), E.Metres(r.value.mean), T3.Dist2(truth[i], truth[j])); }
  }

  /** Exact measurements make exact edges. */
  lemma TableIsExact(t: Contents, truth: seq<Vec>, minOk: nat, sqrt: real -> real)
    requires T3.IsRoot(sqrt) && ExactTable(t, truth, minOk)
    ensures X.Exact(E.Edges(t, minOk, sqrt), truth)
  {
    var pairs, es := E.PairEdges(t, minOk, E.MergeWith(sqrt)), E.Edges(t, minOk, sqrt);
    PairsTagged(t, minOk, sqrt);
    EdgesFromPairs(|t.peers|, 0, 1, pairs);
    forall e | e in es
      ensures e.i < |truth| && e.j < |truth| && e.i != e.j && e.d >= 0.0 && T3.Dist2(truth[e.i], truth[e.j]) == T3.Sq(e.d)
    {
      var k :| 0 <= k < |es| && es[k] == e;
      assert FromPair(|t.peers|, 0, 1, pairs, es[k]);
      PairIsExact(t, truth, minOk, e.i, e.j, sqrt);
    }
  }

  lemma NoResidual(e: E.Edge, nodes: seq<NodeOut>, truth: seq<Vec>, sqrt: real -> real)
    requires T3.IsRoot(sqrt) && R.UsableEdge(e, nodes) && X.Right(nodes, truth)
    requires e.d >= 0.0 && T3.Dist2(truth[e.i], truth[e.j]) == T3.Sq(e.d)
    ensures R.EdgeCost(e, nodes, sqrt) == 0.0
  {
    X.DistanceFound(truth[e.i], truth[e.j], e.d, sqrt);
    assert R.Residual(e, nodes, sqrt) == 0.0;
  }

  /** A layout that is right costs nothing. */
  lemma {:induction false} RightCostsNothing(es: seq<E.Edge>, nodes: seq<NodeOut>, truth: seq<Vec>, sqrt: real -> real)
    requires T3.IsRoot(sqrt) && X.Exact(es, truth) && X.Right(nodes, truth)
    ensures R.Cost(es, nodes, sqrt) == 0.0
  {
    if es != [] {
      var e := es[|es| - 1];
      assert e in es && forall x :: x in es[..|es| - 1] ==> x in es;
      RightCostsNothing(es[..|es| - 1], nodes, truth, sqrt);
      if R.UsableEdge(e, nodes) { NoResidual(e, nodes, truth, sqrt); }
    }
  }

  /** From exact ranges of anchors in general position, in the frame of the gauge, an accepted
      survey gives every anchor where it is, lifted by the height offset. */
  lemma ExactSurveyIsRight(s: G.Gw, solved: G.Solved, truth: seq<Vec>, sqrt: real -> real, k: nat)
    requires T3.IsRoot(sqrt) && G.Inv(s) && Grounded(s, solved, sqrt) && solved.ok && G.DoSolve(s, solved).accepted
    requires ExactTable(s.tbl, truth, G.MIN_N_OK) && k < |truth|
    requires X.General(truth, G.ResolveGauge(s).value.dim) && X.InFrame(truth, G.ResolveGauge(s).value)
    ensures G.DoSolve(s, solved).res.nodes[k] == NodeOut(T3.Add(truth[k], Vec(0.0, 0.0, s.zoff)), Placed)
  {
    AcceptedMeans(s, solved, sqrt);
    ResultIsLifted(s, solved, k);
    var es, g, nodes := EdgesOf(s, sqrt), G.ResolveGauge(s).value, solved.fit.nodes;
    TableIsExact(s.tbl, truth, G.MIN_N_OK, sqrt);
    TableEdges(s.tbl, G.MIN_N_OK, sqrt);
    RefinedIsRight(es, g, truth, nodes, sqrt);
  }

  lemma RefinedIsRight(es: seq<E.Edge>, g: Gauge, truth: seq<Vec>, nodes: seq<NodeOut>, sqrt: real -> real)
    requires T3.IsRoot(sqrt) && S.GaugeValid(g, |truth|) && X.Exact(es, truth) && X.Simple(es) && X.General(truth, g.dim) && X.InFrame(truth, g)
    requires S.SeedOf(es, |truth|, g, sqrt).Some? && R.Refined(es, S.SeedOf(es, |truth|, g, sqrt).value, nodes, g, sqrt)
    requires |nodes| == |truth| && forall k :: 0 <= k < |nodes| ==> nodes[k].state == Placed
    ensures X.Right(nodes, truth)
  {
    var seed := S.SeedOf(es, |truth|, g, sqrt).value;
    X.SeedIsRight(es, g, truth, sqrt);
    RightCostsNothing(es, seed, truth, sqrt);
  }
}
