/** Reducing directed range measurements to undirected edges, and the quality figures read off
    them before any fit. */
module SurveyEdges {
  import opened Options
  import opened SurveyTable
  import opened Trilateration

  const MAX_EDGES: nat := 28
  const SD_FLOOR_MM: nat := 1

  datatype Edge = Edge(i: nat, j: nat, d: real, sd: real)

  /** The first measurement of an ordered pair that rests on enough samples and is positive. */
  function FindMeas(ms: seq<Meas>, a: nat, b: nat, minOk: nat): (r: Option<Meas>)
    ensures r.Some? ==> r.value in ms && Usable(r.value, a, b, minOk)
    ensures r.None? ==> forall m :: m in ms ==> !Usable(m, a, b, minOk)
  {
    if |ms| == 0 then None
    else if Usable(ms[0], a, b, minOk) then Some(ms[0])
    else FindMeas(ms[1..], a, b, minOk)
  }

  predicate Usable(m: Meas, a: nat, b: nat, minOk: nat) {
    m.from == a && m.to == b && m.nOk >= minOk && m.mean > 0
  }

  function Metres(mm: int): real { mm as real / 1000.0 }

  function FlooredSd(m: Meas): (r: real)
    ensures r > 0.0
  {
    Metres(if m.sd >= SD_FLOOR_MM then m.sd else SD_FLOOR_MM)
  }

  function InverseRoot(x: real, sqrt: real -> real): (r: real)
    requires IsRoot(sqrt) && x > 0.0
    ensures r > 0.0 && r * sqrt(x) == 1.0
  {
    1.0 / sqrt(x)
  }

  /** Both directions, weighted by inverse variance. */
  function TwoWay(f: Meas, r: Meas, sqrt: real -> real): (real, real)
    requires IsRoot(sqrt)
  {
    var wf, wr := Weight(FlooredSd(f)), Weight(FlooredSd(r));
    ((wf * Metres(f.mean) + wr * Metres(r.mean)) / (wf + wr), InverseRoot(wf + wr, sqrt))
  }

  function Weight(sd: real): (w: real)
    requires sd > 0.0
    ensures w > 0.0
  {
    PositiveProduct(sd, sd);
    1.0 / (sd * sd)
  }

  lemma PositiveProduct(a: real, b: real)
    requires a > 0.0 && b > 0.0
    ensures a * b > 0.0
  {}

  function EdgeOf(i: nat, j: nat, f: Option<Meas>, r: Option<Meas>, sqrt: real -> real): Option<Edge>
    requires IsRoot(sqrt)
  {
    match (f, r)
    case (Some(m), Some(w)) => var (d, sd) := TwoWay(m, w, sqrt); Some(Edge(i, j, d, sd))
    case (Some(m), None) => Some(Edge(i, j, Metres(m.mean), FlooredSd(m) * 2.0))
    case (None, Some(m)) => Some(Edge(i, j, Metres(m.mean), FlooredSd(m) * 2.0))
    case (None, None) => None
  }

  /** What becomes of a pair of anchors, given the measurement in each direction. */
  type Merge = (nat, nat, Option<Meas>, Option<Meas>) -> Option<Edge>

  function MergeWith(sqrt: real -> real): Merge
    requires IsRoot(sqrt)
  {
    (i: nat, j: nat, f: Option<Meas>, r: Option<Meas>) => EdgeOf(i, j, f, r, sqrt)
  }

  type PairTable = (nat, nat) -> Option<Edge>

  function PairEdges(t: Contents, minOk: nat, merge: Merge): PairTable {
    (i: nat, j: nat) => merge(i, j, FindMeas(t.meas, i, j, minOk), FindMeas(t.meas, j, i, minOk))
  }

  lemma PairEdgesAre(t: Contents, i: nat, j: nat, minOk: nat, sqrt: real -> real)
    requires IsRoot(sqrt)
    ensures PairEdges(t, minOk, MergeWith(sqrt))(i, j)
      == EdgeOf(i, j, FindMeas(t.meas, i, j, minOk), FindMeas(t.meas, j, i, minOk), sqrt)
  {}

  function Listed(e: Option<Edge>): seq<Edge> { if e.Some? then [e.value] else [] }

  /** The edges of the unordered pairs of n anchors from (i, j) on, in row order. */
  function EdgesFrom(n: nat, i: nat, j: nat, pairs: PairTable): seq<Edge>
    decreases n - i, n - j
  {
    if i >= n then []
    else if j >= n then EdgesFrom(n, i + 1, i + 2, pairs)
    else Listed(pairs(i, j)) + EdgesFrom(n, i, j + 1, pairs)
  }

  function Edges(t: Contents, minOk: nat, sqrt: real -> real): seq<Edge>
    requires IsRoot(sqrt)
  {
    EdgesFrom(|t.peers|, 0, 1, PairEdges(t, minOk, MergeWith(sqrt)))
  }

  predicate Unmeasured(t: Contents, i: nat, j: nat, minOk: nat) {
    FindMeas(t.meas, i, j, minOk).None? && FindMeas(t.meas, j, i, minOk).None?
  }

  function Holes(t: Contents, minOk: nat): (nat, nat) -> bool {
    (i: nat, j: nat) => Unmeasured(t, i, j, minOk)
  }

  /** How many of the unordered pairs of n anchors from (i, j) on are holes. */
  function HolesFrom(n: nat, i: nat, j: nat, hole: (nat, nat) -> bool): nat
    decreases n - i, n - j
  {
    if i >= n then 0
    else if j >= n then HolesFrom(n, i + 1, i + 2, hole)
    else (if hole(i, j) then 1 else 0) + HolesFrom(n, i, j + 1, hole)
  }

  /** Pairs measured in neither direction. */
  function Missing(t: Contents, minOk: nat): nat {
    HolesFrom(|t.peers|, 0, 1, Holes(t, minOk))
  }

  method Search(t: Contents, a: nat, b: nat, minOk: nat) returns (r: Option<Meas>)
    ensures r == FindMeas(t.meas, a, b, minOk)
  {
    var k := 0;
    while k < |t.meas|
      invariant k <= |t.meas| && FindMeas(t.meas, a, b, minOk) == FindMeas(t.meas[k..], a, b, minOk)
    {
      if Usable(t.meas[k], a, b, minOk) { return Some(t.meas[k]); }
      k := k + 1;
    }
    return None;
  }

  lemma EdgesStep(n: nat, i: nat, j: nat, pairs: PairTable)
    requires i < n && j < n
    ensures EdgesFrom(n, i, j, pairs) == Listed(pairs(i, j)) + EdgesFrom(n, i, j + 1, pairs)
  {}

  lemma Associative(a: seq<Edge>, b: seq<Edge>, c: seq<Edge>)
    ensures a + (b + c) == (a + b) + c
  {}

  lemma AppendStep(n: nat, i: nat, j: nat, pairs: PairTable, all: seq<Edge>, out: seq<Edge>, next: seq<Edge>)
    requires i < n && j < n && all == out + EdgesFrom(n, i, j, pairs) && next == out + Listed(pairs(i, j))
    ensures all == next + EdgesFrom(n, i, j + 1, pairs)
  {
    EdgesStep(n, i, j, pairs);
    Associative(out, Listed(pairs(i, j)), EdgesFrom(n, i, j + 1, pairs));
  }

  method MergePair(t: Contents, i: nat, j: nat, minOk: nat, merge: Merge) returns (e: Option<Edge>)
    ensures e == PairEdges(t, minOk, merge)(i, j)
  {
    var f := Search(t, i, j, minOk);
    var r := Search(t, j, i, minOk);
    e := merge(i, j, f, r);
  }

  method IsHole(t: Contents, i: nat, j: nat, minOk: nat) returns (h: bool)
    ensures h == Holes(t, minOk)(i, j)
  {
    var f := Search(t, i, j, minOk);
    var r := Search(t, j, i, minOk);
    h := f.None? && r.None?;
  }

  /** The edges written so far, followed by those of the pairs from (i, j) on, are all there are. */
  ghost predicate Leading(out: seq<Edge>, all: seq<Edge>, n: nat, i: nat, j: nat, pairs: PairTable) {
    out <= all && all[|out|..] == EdgesFrom(n, i, j, pairs)
  }

  lemma LeadingRow(out: seq<Edge>, all: seq<Edge>, n: nat, i: nat, j: nat, pairs: PairTable)
    requires i < n && Leading(out, all, n, i, j, pairs)
    ensures out <= all && (j >= n ==> Leading(out, all, n, i + 1, i + 2, pairs))
  {}

  lemma LeadingPair(out: seq<Edge>, all: seq<Edge>, n: nat, i: nat, j: nat, pairs: PairTable)
    requires i < n && j < n && Leading(out, all, n, i, j, pairs)
    ensures Leading(out + Listed(pairs(i, j)), all, n, i, j + 1, pairs)
  {
    var next, rest := out + Listed(pairs(i, j)), EdgesFrom(n, i, j + 1, pairs);
    assert all == out + all[|out|..];
    AppendStep(n, i, j, pairs, all, out, next);
    assert all[|next|..] == rest;
  }

  method AppendPair(t: Contents, i: nat, j: nat, minOk: nat, merge: Merge, out: seq<Edge>, ghost all: seq<Edge>, ghost pairs: PairTable)
    returns (next: seq<Edge>)
    requires i < |t.peers| && j < |t.peers| && pairs == PairEdges(t, minOk, merge) && Leading(out, all, |t.peers|, i, j, pairs)
    ensures |next| <= |out| + 1 && Leading(next, all, |t.peers|, i, j + 1, pairs)
  {
    var e := MergePair(t, i, j, minOk, merge);
    next := out + Listed(e);
    LeadingPair(out, all, |t.peers|, i, j, pairs);
  }

  /** Appends the edges of row i from column i + 1 on, stopping at the capacity. */
  method CollectRow(t: Contents, i: nat, before: seq<Edge>, cap: nat, minOk: nat, merge: Merge, ghost all: seq<Edge>, ghost pairs: PairTable)
    returns (out: seq<Edge>)
    requires i < |t.peers| && |before| < cap && pairs == PairEdges(t, minOk, merge) && Leading(before, all, |t.peers|, i, i + 1, pairs)
    ensures |out| <= cap && out <= all
    ensures |out| < cap ==> Leading(out, all, |t.peers|, i + 1, i + 2, pairs)
  {
    ghost var n := |t.peers|;
    out := before;
    var j := i + 1;
    while j < |t.peers| && |out| < cap
      invariant i < j && |out| <= cap && Leading(out, all, n, i, j, pairs)
    {
      out := AppendPair(t, i, j, minOk, merge, out, all, pairs);
      j := j + 1;
    }
    LeadingRow(out, all, n, i, j, pairs);
  }

  method CollectEdges(t: Contents, cap: nat, minOk: nat, merge: Merge) returns (out: seq<Edge>)
    ensures var all := EdgesFrom(|t.peers|, 0, 1, PairEdges(t, minOk, merge));
      out == if |all| <= cap then all else all[..cap]
  {
    ghost var pairs := PairEdges(t, minOk, merge);
    ghost var all := EdgesFrom(|t.peers|, 0, 1, pairs);
    out := [];
    var i := 0;
    while i < |t.peers| && |out| < cap
      invariant |out| <= cap && out <= all
      invariant |out| < cap ==> Leading(out, all, |t.peers|, i, i + 1, pairs)
    {
      out := CollectRow(t, i, out, cap, minOk, merge, all, pairs);
      i := i + 1;
    }
  }

  /** Writes the edges, as many as the capacity allows. */
  method Symmetrise(t: Contents, cap: nat, minOk: nat, sqrt: real -> real) returns (out: seq<Edge>)
    requires IsRoot(sqrt)
    ensures var all := Edges(t, minOk, sqrt); out == if |all| <= cap then all else all[..cap]
  {
    out := CollectEdges(t, cap, minOk, MergeWith(sqrt));
  }

  lemma HolesStep(n: nat, i: nat, j: nat, hole: (nat, nat) -> bool)
    requires i < n && j < n
    ensures HolesFrom(n, i, j, hole) == (if hole(i, j) then 1 else 0) + HolesFrom(n, i, j + 1, hole)
  {}

  lemma HolesRow(n: nat, i: nat, j: nat, hole: (nat, nat) -> bool)
    requires i < n <= j
    ensures HolesFrom(n, i, j, hole) == HolesFrom(n, i + 1, i + 2, hole)
  {}

  method MissingInRow(t: Contents, i: nat, minOk: nat) returns (missing: nat)
    requires i < |t.peers|
    ensures var n, hole := |t.peers|, Holes(t, minOk);
      HolesFrom(n, i, i + 1, hole) == missing + HolesFrom(n, i + 1, i + 2, hole)
  {
    ghost var n, hole := |t.peers|, Holes(t, minOk);
    missing := 0;
    var j := i + 1;
    while j < |t.peers|
      invariant i < j && HolesFrom(n, i, i + 1, hole) == missing + HolesFrom(n, i, j, hole)
    {
      var h := IsHole(t, i, j, minOk);
      HolesStep(n, i, j, hole);
      if h { missing := missing + 1; }
      j := j + 1;
    }
    HolesRow(n, i, j, hole);
  }

  method MissingPairs(t: Contents, minOk: nat) returns (missing: nat)
    ensures missing == Missing(t, minOk)
  {
    missing := 0;
    for i := 0 to |t.peers|
      invariant missing + HolesFrom(|t.peers|, i, i + 1, Holes(t, minOk)) == Missing(t, minOk)
    {
      var row := MissingInRow(t, i, minOk);
      missing := missing + row;
    }
  }

  // ---- Conservation, order independence, and bounds ----

  function Triangle(n: nat): nat { n * (n - 1) / 2 }

  /** Unordered pairs from (i, j) on. */
  ghost function PairsFrom(n: nat, i: nat, j: nat): nat
    decreases n - i, n - j
  {
    if i >= n then 0 else if j >= n then PairsFrom(n, i + 1, i + 2) else 1 + PairsFrom(n, i, j + 1)
  }

  lemma {:induction false} RowPairs(n: nat, i: nat, j: nat)
    requires i < n && j <= n
    ensures PairsFrom(n, i, j) == n - j + PairsFrom(n, i + 1, i + 2)
    decreases n - j
  {
    if j < n { RowPairs(n, i, j + 1); }
  }

  lemma {:induction false} TriangularPairs(n: nat, i: nat)
    requires i <= n
    ensures 2 * PairsFrom(n, i, i + 1) == (n - i) * (n - i - 1)
    decreases n - i
  {
    if i < n {
      RowPairs(n, i, i + 1);
      TriangularPairs(n, i + 1);
      var k := n - i;
      assert k * (k - 1) == 2 * (k - 1) + (k - 1) * (k - 2);
    }
  }

  lemma {:induction false} EachPairOnce(n: nat, i: nat, j: nat, pairs: PairTable, hole: (nat, nat) -> bool)
    requires forall a: nat, b: nat :: pairs(a, b).None? <==> hole(a, b)
    ensures |EdgesFrom(n, i, j, pairs)| + HolesFrom(n, i, j, hole) == PairsFrom(n, i, j)
    decreases n - i, n - j
  {
    if i < n {
      if j >= n {
        EachPairOnce(n, i + 1, i + 2, pairs, hole);
      } else {
        EachPairOnce(n, i, j + 1, pairs, hole);
        EdgesStep(n, i, j, pairs);
      }
    }
  }

  /** Every unordered pair of anchors is an edge or a reported hole, never both. */
  lemma EdgesAndHoles(t: Contents, minOk: nat, sqrt: real -> real)
    requires IsRoot(sqrt)
    ensures |Edges(t, minOk, sqrt)| + Missing(t, minOk) == Triangle(|t.peers|)
  {
    var pairs, hole := PairEdges(t, minOk, MergeWith(sqrt)), Holes(t, minOk);
    forall a: nat, b: nat ensures pairs(a, b).None? <==> hole(a, b) {
      PairEdgesAre(t, a, b, minOk, sqrt);
    }
    EachPairOnce(|t.peers|, 0, 1, pairs, hole);
    TriangularPairs(|t.peers|, 0);
  }

  /** Eight anchors never fill the edge buffer beyond its capacity. */
  lemma EdgesFitBuffer(t: Contents, minOk: nat, sqrt: real -> real)
    requires IsRoot(sqrt) && Valid(t)
    ensures |Edges(t, minOk, sqrt)| <= MAX_EDGES
  {
    EdgesAndHoles(t, minOk, sqrt);
    EightBySeven(|t.peers|);
  }

  lemma FindMeasByContents(s: seq<Meas>, t: seq<Meas>, a: nat, b: nat, minOk: nat)
    requires DistinctKeys(s) && DistinctKeys(t) && forall m :: m in s <==> m in t
    ensures FindMeas(s, a, b, minOk) == FindMeas(t, a, b, minOk)
  {
    var f, g := FindMeas(s, a, b, minOk), FindMeas(t, a, b, minOk);
    if f.Some? && g.Some? {
      var i :| 0 <= i < |s| && s[i] == f.value;
      var j :| 0 <= j < |s| && s[j] == g.value;
      assert i == j;
    }
  }

  lemma {:induction false} EdgesFromByPairs(n: nat, i: nat, j: nat, p: PairTable, q: PairTable)
    requires forall a: nat, b: nat :: p(a, b) == q(a, b)
    ensures EdgesFrom(n, i, j, p) == EdgesFrom(n, i, j, q)
    decreases n - i, n - j
  {
    if i < n {
      if j >= n { EdgesFromByPairs(n, i + 1, i + 2, p, q); } else { EdgesFromByPairs(n, i, j + 1, p, q); }
    }
  }

  /** The edges depend on which measurements were stored, not on the order they came in. */
  lemma OrderDoesNotMatter(s: Contents, t: Contents, minOk: nat, sqrt: real -> real)
    requires IsRoot(sqrt) && Valid(s) && Valid(t)
    requires s.peers == t.peers && forall m :: m in s.meas <==> m in t.meas
    ensures Edges(s, minOk, sqrt) == Edges(t, minOk, sqrt)
  {
    var p, q := PairEdges(s, minOk, MergeWith(sqrt)), PairEdges(t, minOk, MergeWith(sqrt));
    forall a: nat, b: nat ensures p(a, b) == q(a, b) {
      FindMeasByContents(s.meas, t.meas, a, b, minOk);
      FindMeasByContents(s.meas, t.meas, b, a, minOk);
    }
    EdgesFromByPairs(|s.peers|, 0, 1, p, q);
  }

  function Least(a: real, b: real): real { if a <= b then a else b }
  function Greatest(a: real, b: real): real { if a >= b then a else b }

  function Product(w: real, x: real): real { w * x }

  lemma Distribute(v: real, u: real, x: real)
    ensures Product(v + u, x) == Product(v, x) + Product(u, x)
  {}

  lemma ProductGrows(w: real, a: real, b: real)
    requires w > 0.0 && a <= b
    ensures Product(w, a) <= Product(w, b)
  {
    Monotone(w, a, b);
  }

  lemma WeighedSum(wf: real, wr: real, df: real, dr: real, lo: real, hi: real)
    requires wf > 0.0 && wr > 0.0 && lo <= df <= hi && lo <= dr <= hi
    ensures Product(wf + wr, lo) <= Product(wf, df) + Product(wr, dr) <= Product(wf + wr, hi)
  {
    ProductGrows(wf, lo, df);
    ProductGrows(wr, lo, dr);
    ProductGrows(wf, df, hi);
    ProductGrows(wr, dr, hi);
    Distribute(wf, wr, lo);
    Distribute(wf, wr, hi);
  }

  lemma WeightedMean(wf: real, wr: real, df: real, dr: real)
    requires wf > 0.0 && wr > 0.0
    ensures Least(df, dr) <= (wf * df + wr * dr) / (wf + wr) <= Greatest(df, dr)
  {
    var lo, hi := Least(df, dr), Greatest(df, dr);
    WeighedSum(wf, wr, df, dr, lo, hi);
    Between(lo, Product(wf, df) + Product(wr, dr), hi, wf + wr);
  }

  lemma Monotone(w: real, a: real, b: real)
    requires w > 0.0 && a <= b
    ensures w * a <= w * b
  {}

  lemma Between(lo: real, num: real, hi: real, w: real)
    requires w > 0.0 && Product(w, lo) <= num <= Product(w, hi)
    ensures lo <= num / w <= hi
  {
    var q := num / w;
    assert Product(w, q) == num;
    if q < lo { StrictlyGrows(w, q, lo); }
    if hi < q { StrictlyGrows(w, hi, q); }
  }

  lemma StrictlyGrows(w: real, a: real, b: real)
    requires w > 0.0 && a < b
    ensures Product(w, a) < Product(w, b)
  {
    PositiveProduct(w, b - a);
    assert w * (b - a) == Product(w, b) - Product(w, a);
  }

  lemma NonNegativeProduct(a: real, b: real, c: real)
    requires a >= 0.0 && b >= 0.0 && c == a * b
    ensures c >= 0.0
  {}

  lemma SquareBelowOne(p: real, q: real)
    requires 0.0 <= p < 1.0 && q == p * p
    ensures q < 1.0
  {
    NonNegativeProduct(p, 1.0 - p, p - q);
  }

  lemma SquareOfProduct(a: real, b: real, p: real, q: real, v: real, w: real)
    requires p == a * b && q == p * p && v == a * a && w == b * b
    ensures q == v * w
  {}

  /** A root that is the inverse of the root of a larger weight is smaller. */
  lemma HeavierIsSharper(sd: real, w: real, r: real, root: real)
    requires sd > 0.0 && r > 0.0 && root >= 0.0 && w >= Weight(sd) && root * root == w && r * root == 1.0
    ensures r <= sd
  {
    var p, v := sd * root, sd * sd;
    var q := p * p;
    PositiveProduct(sd, sd);
    assert v * Weight(sd) == 1.0;
    Monotone(v, Weight(sd), w);
    SquareOfProduct(sd, root, p, q, v, w);
    assert p >= 0.0;
    if p < 1.0 { SquareBelowOne(p, q); }
    assert p >= 1.0;
    if r > sd { Monotone(root, sd, r); }
    assert (r - sd) * root == 1.0 - p;
  }

  lemma TwoWayBounds(f: Meas, r: Meas, sqrt: real -> real)
    requires IsRoot(sqrt)
    ensures var (d, sd) := TwoWay(f, r, sqrt);
      && Least(Metres(f.mean), Metres(r.mean)) <= d <= Greatest(Metres(f.mean), Metres(r.mean))
      && 0.0 < sd <= FlooredSd(f) && sd <= FlooredSd(r)
  {
    var wf, wr := Weight(FlooredSd(f)), Weight(FlooredSd(r));
    WeightedMean(wf, wr, Metres(f.mean), Metres(r.mean));
    SharperThanBoth(FlooredSd(f), FlooredSd(r), wf + wr, InverseRoot(wf + wr, sqrt), sqrt(wf + wr));
  }

  lemma SharperThanBoth(sf: real, sr: real, w: real, sd: real, root: real)
    requires sf > 0.0 && sr > 0.0 && sd > 0.0 && root >= 0.0 && w == Weight(sf) + Weight(sr)
    requires root * root == w && sd * root == 1.0
    ensures sd <= sf && sd <= sr
  {
    HeavierIsSharper(sf, w, sd, root);
    HeavierIsSharper(sr, w, sd, root);
  }

  /** Which edge a pair of anchors gets. With both directions: between the two distances, and
      with a deviation no larger than either one's, floored. With one: that distance, trusted
      half as much. Distances and deviations are positive. */
  lemma EdgeBounds(t: Contents, i: nat, j: nat, minOk: nat, sqrt: real -> real)
    requires IsRoot(sqrt)
    ensures var f, r := FindMeas(t.meas, i, j, minOk), FindMeas(t.meas, j, i, minOk);
      match PairEdges(t, minOk, MergeWith(sqrt))(i, j)
      case None => f.None? && r.None?
      case Some(e) =>
        && e.i == i && e.j == j && e.d > 0.0 && e.sd > 0.0
        && (f.Some? && r.Some? ==>
            && Least(Metres(f.value.mean), Metres(r.value.mean)) <= e.d <= Greatest(Metres(f.value.mean), Metres(r.value.mean))
            && e.sd <= FlooredSd(f.value) && e.sd <= FlooredSd(r.value))
        && (f.Some? && r.None? ==> e.d == Metres(f.value.mean) && e.sd == 2.0 * FlooredSd(f.value))
        && (f.None? && r.Some? ==> e.d == Metres(r.value.mean) && e.sd == 2.0 * FlooredSd(r.value))
        && (f.Some? || r.Some?)
  {
    PairEdgesAre(t, i, j, minOk, sqrt);
    match (FindMeas(t.meas, i, j, minOk), FindMeas(t.meas, j, i, minOk)) {
      case (Some(f), Some(r)) => TwoWayBounds(f, r, sqrt);
      case _ =>
    }
  }

  // ---- What merging two directions loses ----

  /** The squared difference of a distance from a measured one, in units of its deviation. */
  function Misfit(x: real, d: real, sd: real): real
    requires sd > 0.0
  {
    Weight(sd) * ((x - d) * (x - d))
  }

  lemma ExpandSquare(w: real, t: real, u: real)
    ensures w * ((t + u) * (t + u)) == w * (t * t) + 2.0 * (t * (w * u)) + w * (u * u)
  {
    assert (t + u) * (t + u) == t * t + 2.0 * (t * u) + u * u;
    assert w * (t * u) == t * (w * u);
  }

  lemma CrossTerms(t: real, a: real, b: real)
    requires a + b == 0.0
    ensures t * a + t * b == 0.0
  {
    assert t * a + t * b == t * (a + b);
  }

  /** Two parabolas add up to one, around the weighted mean d of their centres. */
  lemma TwoParabolas(v: real, w: real, a: real, b: real, d: real, x: real)
    requires (v + w) * d == v * a + w * b
    ensures v * ((x - a) * (x - a)) + w * ((x - b) * (x - b)) ==
      (v + w) * ((x - d) * (x - d)) + (v * ((d - a) * (d - a)) + w * ((d - b) * (d - b)))
  {
    var t := x - d;
    ExpandSquare(v, t, d - a);
    ExpandSquare(w, t, d - b);
    assert t + (d - a) == x - a && t + (d - b) == x - b;
    assert v * (d - a) + w * (d - b) == (v + w) * d - (v * a + w * b);
    CrossTerms(t, v * (d - a), w * (d - b));
    assert (v + w) * (t * t) == v * (t * t) + w * (t * t);
  }

  lemma WeightOfInverseRoot(w: real, root: real, sd: real)
    requires w > 0.0 && sd > 0.0 && root * root == w && sd * root == 1.0
    ensures Weight(sd) == w
  {
    var v := sd * sd;
    PositiveProduct(sd, sd);
    SquareOfProduct(sd, root, 1.0, 1.0, v, w);
    assert v * Weight(sd) == 1.0;
    assert v * (Weight(sd) - w) == 0.0;
  }

  /** Merging the two directions of a pair loses nothing a fit could use: for every distance x,
      the misfits of both measurements differ from the merged edge's by a constant. */
  lemma MergeKeepsMisfit(f: Meas, r: Meas, sqrt: real -> real, x: real)
    requires IsRoot(sqrt)
    ensures var (d, sd) := TwoWay(f, r, sqrt);
      && sd > 0.0
      && Misfit(x, Metres(f.mean), FlooredSd(f)) + Misfit(x, Metres(r.mean), FlooredSd(r)) ==
         Misfit(x, d, sd) + (Misfit(d, Metres(f.mean), FlooredSd(f)) + Misfit(d, Metres(r.mean), FlooredSd(r)))
  {
    var wf, wr, df, dr := Weight(FlooredSd(f)), Weight(FlooredSd(r)), Metres(f.mean), Metres(r.mean);
    var (d, sd) := TwoWay(f, r, sqrt);
    WeightOfInverseRoot(wf + wr, sqrt(wf + wr), sd);
    assert (wf + wr) * d == wf * df + wr * dr;
    TwoParabolas(wf, wr, df, dr, d, x);
  }

  // ---- Quality of the ranging ----

  /** How far the two directions of a pair disagree; -1 when it was not measured in both. */
  function Disagreement(ms: seq<Meas>, i: nat, j: nat, minOk: nat): (d: int)
    ensures d >= -1
  {
    match (FindMeas(ms, i, j, minOk), FindMeas(ms, j, i, minOk))
    case (Some(f), Some(r)) => if f.mean >= r.mean then f.mean - r.mean else r.mean - f.mean
    case _ => -1
  }

  /** The larger deviation of a pair's usable measurements; 0 when there is none. */
  function Spread(ms: seq<Meas>, i: nat, j: nat, minOk: nat): nat {
    var f, r := FindMeas(ms, i, j, minOk), FindMeas(ms, j, i, minOk);
    var sf := if f.Some? then f.value.sd else 0;
    var sr := if r.Some? then r.value.sd else 0;
    if sf >= sr then sf else sr
  }

  /** Pair (a, b) comes before pair (i, j) in row order. */
  predicate Earlier(a: nat, b: nat, i: nat, j: nat) { a < b && (a < i || (a == i && b < j)) }

  /** top is the largest value of f over the pairs of n anchors before (i, j), or base when none exceeds it. */
  ghost predicate IsTop(f: (nat, nat) -> int, n: nat, i: nat, j: nat, base: int, top: int) {
    && base <= top
    && (forall a: nat, b: nat :: b < n && Earlier(a, b, i, j) ==> f(a, b) <= top)
    && (top == base || exists a: nat, b: nat :: b < n && Earlier(a, b, i, j) && f(a, b) == top)
  }

  lemma TopStep(f: (nat, nat) -> int, n: nat, i: nat, j: nat, base: int, top: int, next: int)
    requires IsTop(f, n, i, j, base, top) && i < j < n && next == if f(i, j) > top then f(i, j) else top
    ensures IsTop(f, n, i, j + 1, base, next)
  {
    forall a: nat, b: nat | b < n && Earlier(a, b, i, j + 1) ensures f(a, b) <= next {
      assert Earlier(a, b, i, j) || (a == i && b == j);
    }
    if next != base {
      if next == top {
        var a: nat, b: nat :| b < n && Earlier(a, b, i, j) && f(a, b) == top;
        assert Earlier(a, b, i, j + 1);
      } else {
        assert Earlier(i, j, i, j + 1);
      }
    }
  }

  lemma TopRow(f: (nat, nat) -> int, n: nat, i: nat, j: nat, base: int, top: int)
    requires IsTop(f, n, i, j, base, top) && j >= n
    ensures IsTop(f, n, i + 1, i + 2, base, top)
  {
    forall a: nat, b: nat | b < n && Earlier(a, b, i + 1, i + 2) ensures f(a, b) <= top {
      assert Earlier(a, b, i, j);
    }
    if top != base {
      var a: nat, b: nat :| b < n && Earlier(a, b, i, j) && f(a, b) == top;
      assert Earlier(a, b, i + 1, i + 2);
    }
  }

  ghost function Disagreements(t: Contents, minOk: nat): (nat, nat) -> int {
    (a: nat, b: nat) => Disagreement(t.meas, a, b, minOk)
  }

  ghost function Spreads(t: Contents, minOk: nat): (nat, nat) -> int {
    (a: nat, b: nat) => Spread(t.meas, a, b, minOk)
  }

  lemma TopFits(t: Contents, minOk: nat, top: int)
    requires IsTop(Disagreements(t, minOk), |t.peers|, |t.peers|, |t.peers| + 1, -1, top)
    ensures (forall m :: m in t.meas ==> m.mean < 0x8000_0000) ==> top < 0x8000_0000
  {
    if top != -1 {
      var n, f := |t.peers|, Disagreements(t, minOk);
      var a: nat, b: nat :| b < n && Earlier(a, b, n, n + 1) && f(a, b) == top;
      assert Disagreement(t.meas, a, b, minOk) == top;
    }
  }

  /** The largest disagreement between the two directions of any pair, -1 when no pair was
      measured both ways, and the largest deviation of any usable measurement. The
      disagreement fits 32 bits because usable distances are positive. */
  method Quality(t: Contents, minOk: nat) returns (recip: int, sd: nat)
    ensures IsTop(Disagreements(t, minOk), |t.peers|, |t.peers|, |t.peers| + 1, -1, recip)
    ensures IsTop(Spreads(t, minOk), |t.peers|, |t.peers|, |t.peers| + 1, 0, sd)
    ensures (forall m :: m in t.meas ==> m.mean < 0x8000_0000) ==> recip < 0x8000_0000
  {
    ghost var n, f, g := |t.peers|, Disagreements(t, minOk), Spreads(t, minOk);
    recip, sd := -1, 0;
    var i := 0;
    while i < |t.peers|
      invariant i <= n && IsTop(f, n, i, i + 1, -1, recip) && IsTop(g, n, i, i + 1, 0, sd)
    {
      recip, sd := RowQuality(t, i, minOk, recip, sd, f, g);
      i := i + 1;
    }
    TopFits(t, minOk, recip);
  }

  /** The pairs of one row. */
  method RowQuality(t: Contents, i: nat, minOk: nat, recip0: int, sd0: nat, ghost f: (nat, nat) -> int, ghost g: (nat, nat) -> int)
    returns (recip: int, sd: nat)
    requires f == Disagreements(t, minOk) && g == Spreads(t, minOk) && i < |t.peers|
    requires IsTop(f, |t.peers|, i, i + 1, -1, recip0) && IsTop(g, |t.peers|, i, i + 1, 0, sd0)
    ensures IsTop(f, |t.peers|, i + 1, i + 2, -1, recip) && IsTop(g, |t.peers|, i + 1, i + 2, 0, sd)
  {
    recip, sd := recip0, sd0;
    var j := i + 1;
    while j < |t.peers|
      invariant i < j <= |t.peers| && IsTop(f, |t.peers|, i, j, -1, recip) && IsTop(g, |t.peers|, i, j, 0, sd)
    {
      ghost var recip1, sd1 := recip, sd;
      recip, sd := PairQuality(t, i, j, minOk, recip, sd, f, g);
      TopStep(f, |t.peers|, i, j, -1, recip1, recip);
      TopStep(g, |t.peers|, i, j, 0, sd1, sd);
      j := j + 1;
    }
    TopRow(f, |t.peers|, i, j, -1, recip);
    TopRow(g, |t.peers|, i, j, 0, sd);
  }

  method PairQuality(t: Contents, i: nat, j: nat, minOk: nat, recip0: int, sd0: nat,
                     ghost f: (nat, nat) -> int, ghost g: (nat, nat) -> int)
    returns (recip: int, sd: nat)
    requires recip0 >= -1 && f == Disagreements(t, minOk) && g == Spreads(t, minOk)
    ensures recip == if f(i, j) > recip0 then f(i, j) else recip0
    ensures sd == if g(i, j) > sd0 then g(i, j) else sd0
  {
    recip, sd := recip0, sd0;
    var m := Search(t, i, j, minOk);
    var r := Search(t, j, i, minOk);
    if m.Some? && m.value.sd > sd { sd := m.value.sd; }
    if r.Some? && r.value.sd > sd { sd := r.value.sd; }
    if m.None? || r.None? { return; }
    var d := m.value.mean - r.value.mean;
    if d < 0 { d := -d; }
    if d > recip { recip := d; }
  }
}
