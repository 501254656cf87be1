/** Dense linear algebra of the Levenberg-Marquardt step: Gaussian elimination with partial
    pivoting, in place, over exact reals. */
module LinearSolver {
  import opened Reals

  type Row = seq<real>
  type Matrix = seq<Row>

  /** Pivots smaller than this count as a singular system. */
  const PIVOT_MIN: real := 0.000000000001

  function Times(x: real, y: real): real { x * y }

  function Minus(x: real, f: real, y: real): real { x - f * y }

  /** The sum of u[k] * x[k] for lo <= k < hi. */
  ghost function Dot(u: Row, x: Row, lo: nat, hi: nat): real
    requires lo <= hi <= |u| && hi <= |x|
    decreases hi
  {
    if lo == hi then 0.0 else Dot(u, x, lo, hi - 1) + Times(u[hi - 1], x[hi - 1])
  }

  ghost predicate Square(m: Matrix, n: nat) {
    |m| == n && forall i :: 0 <= i < n ==> |m[i]| == n
  }

  /** x solves m * x == r. */
  ghost predicate Solves(m: Matrix, r: Row, x: Row) {
    Square(m, |x|) && |r| == |x| && forall i :: 0 <= i < |x| ==> Dot(m[i], x, 0, |x|) == r[i]
  }

  ghost predicate SameSolutions(m: Matrix, r: Row, m': Matrix, r': Row, n: nat) {
    forall x :: |x| == n ==> (Solves(m, r, x) <==> Solves(m', r', x))
  }

  /** Columns below c hold nothing under the diagonal, and their pivots are not small. */
  ghost predicate Eliminated(m: Matrix, n: nat, c: nat)
    requires Square(m, n) && c <= n
  {
    && (forall i, k :: 0 <= k < c && k < i < n ==> m[i][k] == 0.0)
    && (forall k :: 0 <= k < c ==> Abs(m[k][k]) >= PIVOT_MIN)
  }

  /** An equivalent system, reduced as far as column c, in which no remaining entry of that
      column is large enough to be a pivot. */
  ghost predicate StuckAt(m: Matrix, r: Row, n: nat, c: nat, m': Matrix, r': Row) {
    && c < n && Square(m', n) && |r'| == n && SameSolutions(m, r, m', r', n) && Eliminated(m', n, c)
    && forall i :: c <= i < n ==> Abs(m'[i][c]) < PIVOT_MIN
  }

  lemma {:induction false} DotSplit(u: Row, x: Row, lo: nat, mid: nat, hi: nat)
    requires lo <= mid <= hi <= |u| && hi <= |x|
    ensures Dot(u, x, lo, hi) == Dot(u, x, lo, mid) + Dot(u, x, mid, hi)
    decreases hi
  {
    if mid < hi { DotSplit(u, x, lo, mid, hi - 1); }
  }

  lemma {:induction false} DotZero(u: Row, x: Row, lo: nat, hi: nat)
    requires lo <= hi <= |u| && hi <= |x|
    requires forall k :: lo <= k < hi ==> u[k] == 0.0
    ensures Dot(u, x, lo, hi) == 0.0
    decreases hi
  {
    if lo < hi {
      DotZero(u, x, lo, hi - 1);
      ZeroTimes(x[hi - 1]);
    }
  }

  lemma {:induction false} DotSame(u: Row, x: Row, y: Row, lo: nat, hi: nat)
    requires lo <= hi <= |u| && hi <= |x| && hi <= |y|
    requires forall k :: lo <= k < hi ==> x[k] == y[k]
    ensures Dot(u, x, lo, hi) == Dot(u, y, lo, hi)
    decreases hi
  {
    if lo < hi { DotSame(u, x, y, lo, hi - 1); }
  }

  lemma TimesMinus(a: real, b: real, f: real, x: real)
    ensures Times(Minus(a, f, b), x) == Minus(Times(a, x), f, Times(b, x))
  {}

  lemma MinusSum(a: real, b: real, f: real, c: real, d: real)
    ensures Minus(a, f, c) + Minus(b, f, d) == Minus(a + b, f, c + d)
  {}

  lemma MinusZero(x: real, f: real, y: real)
    requires Times(f, y) == x
    ensures Minus(x, f, y) == 0.0
  {}

  lemma MinusNothing(f: real)
    ensures Minus(0.0, f, 0.0) == 0.0
  {}

  lemma MinusNone(x: real, y: real)
    ensures Minus(x, 0.0, y) == x
  {}

  lemma ZeroTimes(x: real)
    ensures Times(0.0, x) == 0.0
  {}

  lemma TimesSum(u: real, x: real, y: real)
    ensures Times(u, x + y) == Times(u, x) + Times(u, y)
  {}

  /** Dot is linear in the row: w == u - f * v. */
  lemma {:induction false} DotAxpy(u: Row, v: Row, w: Row, f: real, x: Row, hi: nat)
    requires hi <= |u| && hi <= |v| && hi <= |w| && hi <= |x|
    requires forall k :: 0 <= k < hi ==> w[k] == Minus(u[k], f, v[k])
    ensures Dot(w, x, 0, hi) == Minus(Dot(u, x, 0, hi), f, Dot(v, x, 0, hi))
  {
    if hi == 0 {
      MinusNothing(f);
    } else {
      DotAxpy(u, v, w, f, x, hi - 1);
      TimesMinus(u[hi - 1], v[hi - 1], f, x[hi - 1]);
      MinusSum(Dot(u, x, 0, hi - 1), Times(u[hi - 1], x[hi - 1]), f, Dot(v, x, 0, hi - 1), Times(v[hi - 1], x[hi - 1]));
    }
  }

  /** Dot is linear in the vector: z == x + y. */
  lemma {:induction false} DotAdd(u: Row, x: Row, y: Row, z: Row, hi: nat)
    requires hi <= |u| && hi <= |x| && hi <= |y| && hi <= |z|
    requires forall k :: 0 <= k < hi ==> z[k] == x[k] + y[k]
    ensures Dot(u, z, 0, hi) == Dot(u, x, 0, hi) + Dot(u, y, 0, hi)
  {
    if hi > 0 {
      DotAdd(u, x, y, z, hi - 1);
      TimesSum(u[hi - 1], x[hi - 1], y[hi - 1]);
    }
  }

  /** Exchanging two equations keeps the solutions. */
  lemma SwapKeepsSolutions(m: Matrix, r: Row, n: nat, a: nat, b: nat)
    requires Square(m, n) && |r| == n && a < n && b < n
    ensures SameSolutions(m, r, m[a := m[b]][b := m[a]], r[a := r[b]][b := r[a]], n)
  {
    var m', r' := m[a := m[b]][b := m[a]], r[a := r[b]][b := r[a]];
    forall x | |x| == n ensures Solves(m, r, x) <==> Solves(m', r', x) {
      if Solves(m', r', x) {
        forall i | 0 <= i < n ensures Dot(m[i], x, 0, n) == r[i] {
          var j := if i == a then b else if i == b then a else i;
          assert m'[j] == m[i] && r'[j] == r[i];
        }
      }
    }
  }

  ghost function RowMinus(u: Row, f: real, v: Row): (w: Row)
    requires |u| == |v|
    ensures |w| == |u| && forall k :: 0 <= k < |u| ==> w[k] == Minus(u[k], f, v[k])
  {
    seq(|u|, k requires 0 <= k < |u| => Minus(u[k], f, v[k]))
  }

  lemma MinusInjective(x: real, y: real, f: real, z: real)
    requires Minus(x, f, z) == Minus(y, f, z)
    ensures x == y
  {}

  /** Subtracting f times equation c from another equation keeps the solutions. */
  lemma EliminateKeepsSolutions(m: Matrix, r: Row, n: nat, c: nat, i: nat, f: real)
    requires Square(m, n) && |r| == n && c < n && i < n && c != i
    ensures SameSolutions(m, r, m[i := RowMinus(m[i], f, m[c])], r[i := Minus(r[i], f, r[c])], n)
  {
    var m', r' := m[i := RowMinus(m[i], f, m[c])], r[i := Minus(r[i], f, r[c])];
    forall x | |x| == n ensures Solves(m, r, x) <==> Solves(m', r', x) {
      DotAxpy(m[i], m[c], m'[i], f, x, n);
      if Solves(m', r', x) {
        assert Dot(m'[c], x, 0, n) == r'[c] && Dot(m'[i], x, 0, n) == r'[i];
        MinusInjective(Dot(m[i], x, 0, n), r[i], f, r[c]);
        forall j | 0 <= j < n ensures Dot(m[j], x, 0, n) == r[j] {
          assert Dot(m'[j], x, 0, n) == r'[j];
        }
      }
    }
  }

  lemma SameSolutionsTrans(m: Matrix, r: Row, m': Matrix, r': Row, m'': Matrix, r'': Row, n: nat)
    requires SameSolutions(m, r, m', r', n) && SameSolutions(m', r', m'', r'', n)
    ensures SameSolutions(m, r, m'', r'', n)
  {
    forall x | |x| == n ensures Solves(m, r, x) <==> Solves(m'', r'', x) {
      assert Solves(m, r, x) <==> Solves(m', r', x);
    }
  }

  lemma Cancel(p: real, x: real, y: real)
    requires p != 0.0 && Times(p, x) == Times(p, y)
    ensures x == y
  {
    assert p * (x - y) == 0.0;
  }

  /** The equation of a row that is zero before its diagonal. */
  lemma RowTail(u: Row, x: Row, i: nat)
    requires i < |u| == |x| && forall k :: 0 <= k < i ==> u[k] == 0.0
    ensures Dot(u, x, 0, |x|) == Times(u[i], x[i]) + Dot(u, x, i + 1, |x|)
  {
    DotSplit(u, x, 0, i, |x|);
    DotSplit(u, x, i, i + 1, |x|);
    DotZero(u, x, 0, i);
    assert Dot(u, x, i, i + 1) == Dot(u, x, i, i) + Times(u[i], x[i]);
  }

  /** An upper triangular system has one solution at most. */
  lemma {:induction false} TriangularUnique(m: Matrix, r: Row, x: Row, y: Row, i: nat)
    requires Solves(m, r, x) && Solves(m, r, y) && i <= |x| == |y| && Eliminated(m, |x|, |x|)
    ensures forall k :: i <= k < |x| ==> x[k] == y[k]
    decreases |x| - i
  {
    if i < |x| {
      TriangularUnique(m, r, x, y, i + 1);
      RowTail(m[i], x, i);
      RowTail(m[i], y, i);
      DotSame(m[i], x, y, i + 1, |x|);
      var rest := Dot(m[i], x, i + 1, |x|);
      assert Dot(m[i], x, 0, |x|) == r[i] && Dot(m[i], y, 0, |y|) == r[i];
      assert Times(m[i][i], x[i]) == r[i] - rest;
      assert Times(m[i][i], y[i]) == r[i] - rest;
      assert Abs(m[i][i]) >= PIVOT_MIN;
      Cancel(m[i][i], x[i], y[i]);
    }
  }

  /** A system that has exactly one solution is regular: only the zero vector is sent to zero. */
  lemma UniqueIsRegular(m: Matrix, r: Row, x: Row, v: Row)
    requires Solves(m, r, x) && forall y :: |y| == |x| && Solves(m, r, y) ==> y == x
    requires |v| == |x| && Solves(m, seq(|x|, _ => 0.0), v)
    ensures forall k :: 0 <= k < |x| ==> v[k] == 0.0
  {
    var y := seq(|x|, k requires 0 <= k < |x| => x[k] + v[k]);
    forall i | 0 <= i < |x| ensures Dot(m[i], y, 0, |x|) == r[i] {
      DotAdd(m[i], x, v, y, |x|);
    }
    assert Solves(m, r, y);
    forall k | 0 <= k < |x| ensures v[k] == 0.0 { assert y[k] == x[k]; }
  }

  // ---- Column dominance, which elimination keeps ----

  /** The sum of the sizes of the entries of column j beside its diagonal, in rows lo to hi. */
  ghost function Beside(m: Matrix, j: nat, lo: nat, hi: nat): (r: real)
    requires lo <= hi <= |m| && forall i :: lo <= i < hi ==> j < |m[i]|
    ensures r >= 0.0
    decreases hi
  {
    if lo == hi then 0.0 else Beside(m, j, lo, hi - 1) + if hi - 1 == j then 0.0 else Abs(m[hi - 1][j])
  }

  /** From row and column c on, each diagonal entry outweighs the rest of its column by at least
      the size of the smallest pivot. */
  ghost predicate Dominant(m: Matrix, n: nat, c: nat)
    requires Square(m, n) && c <= n
  {
    forall j :: c <= j < n ==> Beside(m, j, c, n) + PIVOT_MIN <= Abs(m[j][j])
  }

  lemma {:induction false} BesideFirst(m: Matrix, j: nat, lo: nat, hi: nat)
    requires lo < hi <= |m| && j != lo && forall i :: lo <= i < hi ==> j < |m[i]|
    ensures Beside(m, j, lo, hi) == Abs(m[lo][j]) + Beside(m, j, lo + 1, hi)
    decreases hi
  {
    if lo + 1 < hi { BesideFirst(m, j, lo, hi - 1); }
  }

  lemma {:induction false} BesideAtLeast(m: Matrix, j: nat, lo: nat, hi: nat, i: nat)
    requires lo <= i < hi <= |m| && i != j && forall k :: lo <= k < hi ==> j < |m[k]|
    ensures Abs(m[i][j]) <= Beside(m, j, lo, hi)
    decreases hi
  {
    if i < hi - 1 { BesideAtLeast(m, j, lo, hi - 1, i); }
  }

  /** The sum of the sizes of some multipliers. */
  ghost function Sizes(f: Row, lo: nat, hi: nat): (r: real)
    requires lo <= hi <= |f|
    ensures r >= 0.0
    decreases hi
  {
    if lo == hi then 0.0 else Sizes(f, lo, hi - 1) + Abs(f[hi - 1])
  }

  lemma AbsTimes(x: real, y: real)
    ensures Abs(Times(x, y)) == Times(Abs(x), Abs(y))
  {}

  lemma TimesSumLeft(x: real, y: real, z: real)
    ensures Times(x + y, z) == Times(x, z) + Times(y, z)
  {}

  lemma MinusSize(x: real, f: real, y: real)
    ensures Abs(x) - Times(Abs(f), Abs(y)) <= Abs(Minus(x, f, y)) <= Abs(x) + Times(Abs(f), Abs(y))
  {
    AbsTimes(f, y);
    assert Minus(x, f, y) == x - Times(f, y);
  }

  lemma AtMostOne(x: real, d: real)
    requires d > 0.0 && Times(x, d) <= d
    ensures x <= 1.0
  {
    if x > 1.0 { PositiveTimes(x - 1.0, d); TimesSumLeft(x - 1.0, 1.0, d); }
  }

  lemma PositiveTimes(x: real, y: real)
    requires x > 0.0 && y > 0.0
    ensures Times(x, y) > 0.0
  {}

  lemma AtMostOnce(x: real, q: real)
    requires x <= 1.0 && q >= 0.0
    ensures Times(x, q) <= q
  {
    TimesSumLeft(x, 1.0 - x, q);
    assert Times(1.0 - x, q) >= 0.0;
  }

  /** u[i] is what becomes of row i when a multiple of row c takes away its entry in column c. */
  ghost predicate RowCleared(m: Matrix, u: Matrix, n: nat, c: nat, i: nat, f: real)
    requires Square(m, n) && Square(u, n) && c < n && i < n
  {
    Times(f, m[c][c]) == m[i][c] && forall k :: 0 <= k < n ==> u[i][k] == Minus(m[i][k], f, m[c][k])
  }

  ghost predicate ClearedUpto(m: Matrix, u: Matrix, n: nat, c: nat, f: Row, hi: nat)
    requires Square(m, n) && Square(u, n) && c < hi <= n
  {
    |f| == n && forall i :: c < i < hi ==> RowCleared(m, u, n, c, i, f[i])
  }

  /** f holds the multipliers with which the rows below c lose their entry in column c. */
  ghost predicate Cleared(m: Matrix, u: Matrix, n: nat, c: nat, f: Row)
    requires Square(m, n) && Square(u, n) && c < n
  {
    ClearedUpto(m, u, n, c, f, n)
  }

  lemma ClearOneMore(m: Matrix, u: Matrix, v: Matrix, n: nat, c: nat, f: Row, i: nat, g: real)
    requires Square(m, n) && Square(u, n) && Square(v, n) && c < i < n && ClearedUpto(m, u, n, c, f, i)
    requires u[c] == m[c] && u[i] == m[i] && RowCleared(u, v, n, c, i, g)
    requires forall j :: 0 <= j < n && j != i ==> v[j] == u[j]
    ensures ClearedUpto(m, v, n, c, f[i := g], i + 1)
  {
    var more := f[i := g];
    forall j | c < j < i + 1 ensures RowCleared(m, v, n, c, j, more[j]) {
      if j < i { assert RowCleared(m, u, n, c, j, f[j]); }
    }
  }

  lemma {:induction false} MultipliersAre(m: Matrix, u: Matrix, n: nat, c: nat, f: Row, hi: nat)
    requires Square(m, n) && Square(u, n) && c < hi <= n && Cleared(m, u, n, c, f)
    ensures Times(Sizes(f, c + 1, hi), Abs(m[c][c])) == Beside(m, c, c + 1, hi)
    decreases hi
  {
    if c + 1 < hi {
      MultipliersAre(m, u, n, c, f, hi - 1);
      assert RowCleared(m, u, n, c, hi - 1, f[hi - 1]);
      TimesSumLeft(Sizes(f, c + 1, hi - 1), Abs(f[hi - 1]), Abs(m[c][c]));
      AbsTimes(f[hi - 1], m[c][c]);
    } else {
      ZeroTimes(Abs(m[c][c]));
    }
  }

  /** What the rest of column j can grow by, the diagonal's own loss included. */
  lemma {:induction false} BesideGrows(m: Matrix, u: Matrix, n: nat, c: nat, f: Row, j: nat, hi: nat)
    requires Square(m, n) && Square(u, n) && c < hi <= n && c < j < n && Cleared(m, u, n, c, f)
    ensures Beside(u, j, c + 1, hi) + (if j < hi then Times(Abs(f[j]), Abs(m[c][j])) else 0.0)
      <= Beside(m, j, c + 1, hi) + Times(Sizes(f, c + 1, hi), Abs(m[c][j]))
    decreases hi
  {
    var q := Abs(m[c][j]);
    if c + 1 < hi {
      var i := hi - 1;
      BesideGrows(m, u, n, c, f, j, i);
      assert RowCleared(m, u, n, c, i, f[i]);
      TimesSumLeft(Sizes(f, c + 1, i), Abs(f[i]), q);
      MinusSize(m[i][j], f[i], m[c][j]);
    } else {
      ZeroTimes(q);
    }
  }

  lemma ClearedColumn(m: Matrix, u: Matrix, n: nat, c: nat, f: Row, j: nat)
    requires Square(m, n) && Square(u, n) && c < j < n && Cleared(m, u, n, c, f) && Dominant(m, n, c)
    ensures Beside(u, j, c + 1, n) + PIVOT_MIN <= Abs(u[j][j])
  {
    var q, d := Abs(m[c][j]), Abs(m[c][c]);
    var total := Sizes(f, c + 1, n);
    MultipliersAre(m, u, n, c, f, n);
    DiagonalFirst(m, c, n);
    AtMostOne(total, d);
    AtMostOnce(total, q);
    BesideGrows(m, u, n, c, f, j, n);
    BesideFirst(m, j, c, n);
    assert RowCleared(m, u, n, c, j, f[j]);
    MinusSize(m[j][j], f[j], m[c][j]);
  }

  lemma {:induction false} DiagonalFirst(m: Matrix, c: nat, hi: nat)
    requires c < hi <= |m| && forall i :: c <= i < hi ==> c < |m[i]|
    ensures Beside(m, c, c, hi) == Beside(m, c, c + 1, hi)
    decreases hi
  {
    if c + 1 < hi { DiagonalFirst(m, c, hi - 1); }
  }

  /** Clearing below a pivot leaves the remaining columns as dominant as they were. */
  lemma ClearingKeepsDominance(m: Matrix, u: Matrix, n: nat, c: nat, f: Row)
    requires Square(m, n) && Square(u, n) && c < n && Cleared(m, u, n, c, f) && Dominant(m, n, c)
    ensures Dominant(u, n, c + 1)
  {
    forall j | c + 1 <= j < n ensures Beside(u, j, c + 1, n) + PIVOT_MIN <= Abs(u[j][j]) { ClearedColumn(m, u, n, c, f, j); }
  }

  /** In a dominant column the diagonal entry is the one largest entry, and large enough. */
  lemma DominantPivot(m: Matrix, n: nat, c: nat)
    requires Square(m, n) && c < n && Dominant(m, n, c)
    ensures Abs(m[c][c]) >= PIVOT_MIN && forall i :: c < i < n ==> Abs(m[i][c]) < Abs(m[c][c])
  {
    forall i | c < i < n ensures Abs(m[i][c]) < Abs(m[c][c]) { BesideAtLeast(m, c, c, n, i); }
  }

  ghost function Rows(a: array2<real>, n: nat): (m: Matrix)
    requires n <= a.Length0 && n <= a.Length1
    reads a
    ensures Square(m, n) && forall i, j :: 0 <= i < n && 0 <= j < n ==> m[i][j] == a[i, j]
  {
    seq(n, i requires 0 <= i < n reads a => seq(n, j requires 0 <= j < n reads a => a[i, j]))
  }

  lemma MatrixEqual(m: Matrix, m': Matrix, n: nat)
    requires Square(m, n) && Square(m', n)
    requires forall i, j :: 0 <= i < n && 0 <= j < n ==> m[i][j] == m'[i][j]
    ensures m == m'
  {
    forall i | 0 <= i < n ensures m[i] == m'[i] {}
  }

  /** The row at or below c whose entry in column c is largest. */
  method FindPivot(a: array2<real>, n: nat, c: nat) returns (piv: nat)
    requires n <= a.Length0 && n <= a.Length1 && c < n
    ensures c <= piv < n
    ensures forall i :: c <= i < n ==> Abs(a[i, c]) <= Abs(a[piv, c])
    ensures piv == c || Abs(a[c, c]) < Abs(a[piv, c])
  {
    piv := c;
    for i := c + 1 to n
      invariant c <= piv < i && (piv == c || Abs(a[c, c]) < Abs(a[piv, c]))
      invariant forall k :: c <= k < i ==> Abs(a[k, c]) <= Abs(a[piv, c])
    {
      if Abs(a[i, c]) > Abs(a[piv, c]) { piv := i; }
    }
  }

  method SwapRows(a: array2<real>, b: array<real>, n: nat, c: nat, piv: nat)
    requires n <= a.Length0 && n <= a.Length1 && n <= b.Length && c < n && piv < n
    modifies a, b
    ensures Rows(a, n) == old(Rows(a, n)[c := Rows(a, n)[piv]][piv := Rows(a, n)[c]])
    ensures b[..n] == old(b[..n][c := b[piv]][piv := b[c]]) && b[n..] == old(b[n..])
  {
    ghost var m := Rows(a, n);
    for k := 0 to n
      invariant b[..] == old(b[..])
      invariant forall i, j :: 0 <= i < n && 0 <= j < n ==>
        a[i, j] == if j < k && i == c then m[piv][j] else if j < k && i == piv then m[c][j] else m[i][j]
    {
      a[c, k], a[piv, k] := a[piv, k], a[c, k];
    }
    b[c], b[piv] := b[piv], b[c];
    MatrixEqual(Rows(a, n), m[c := m[piv]][piv := m[c]], n);
  }

  method Divide(num: real, den: real) returns (q: real)
    requires den != 0.0
    ensures Times(den, q) == num && Times(q, den) == num
  {
    q := num / den;
  }

  /** Row i minus f times row c, from column c rightwards only: the columns before c are zero in row c. */
  method SubtractRow(a: array2<real>, b: array<real>, n: nat, c: nat, i: nat, f: real)
    requires n <= a.Length0 && n <= a.Length1 && n <= b.Length && c < i < n
    requires forall k :: 0 <= k < c ==> a[c, k] == 0.0
    modifies a, b
    ensures Rows(a, n) == old(var m := Rows(a, n); m[i := RowMinus(m[i], f, m[c])])
    ensures b[..n] == old(var r := b[..n]; r[i := Minus(r[i], f, r[c])]) && b[n..] == old(b[n..])
  {
    ghost var m := Rows(a, n);
    for k := c to n
      invariant b[..] == old(b[..])
      invariant forall j, l :: 0 <= j < n && 0 <= l < n ==>
        a[j, l] == if j == i && c <= l < k then Minus(m[i][l], f, m[c][l]) else m[j][l]
    {
      a[i, k] := Minus(a[i, k], f, a[c, k]);
    }
    var v := Minus(b[i], f, b[c]);
    b[i] := v;
    MatrixEqual(Rows(a, n), m[i := RowMinus(m[i], f, m[c])], n);
  }

  lemma SwapKeepsEliminated(m: Matrix, n: nat, c: nat, piv: nat)
    requires Square(m, n) && c <= piv < n && Eliminated(m, n, c)
    ensures Eliminated(m[c := m[piv]][piv := m[c]], n, c)
  {}

  /** Clears the entry of row i in column c with a multiple of the pivot row. */
  method EliminateRow(a: array2<real>, b: array<real>, n: nat, c: nat, i: nat) returns (ghost g: real)
    requires n <= a.Length0 && n <= a.Length1 && n <= b.Length && c < i < n
    requires forall k :: 0 <= k < c ==> a[c, k] == 0.0 && a[i, k] == 0.0
    requires a[c, c] != 0.0
    modifies a, b
    ensures SameSolutions(old(Rows(a, n)), old(b[..n]), Rows(a, n), b[..n], n)
    ensures forall k :: 0 <= k <= c ==> a[i, k] == 0.0
    ensures RowCleared(old(Rows(a, n)), Rows(a, n), n, c, i, g)
    ensures forall j, k :: 0 <= j < n && 0 <= k < n && j != i ==> a[j, k] == old(a[j, k])
    ensures b[n..] == old(b[n..])
  {
    ghost var m, r := Rows(a, n), b[..n];
    var f := Divide(a[i, c], a[c, c]);
    g := f;
    if f == 0.0 {
      ZeroTimes(m[c][c]);
      forall k | 0 <= k < n ensures a[i, k] == Minus(m[i][k], f, m[c][k]) { MinusNone(m[i][k], m[c][k]); }
      return;
    }
    EliminateKeepsSolutions(m, r, n, c, i, f);
    MinusZero(m[i][c], f, m[c][c]);
    MinusNothing(f);
    SubtractRow(a, b, n, c, i, f);
    forall j, k | 0 <= j < n && 0 <= k < n
      ensures a[j, k] == if j == i then Minus(m[i][k], f, m[c][k]) else m[j][k]
    {
      assert Rows(a, n)[j][k] == a[j, k];
    }
  }

  /** The sum of row i beyond its diagonal, taken off s. */
  method Residual(a: array2<real>, b: array<real>, n: nat, i: nat) returns (s: real)
    requires n <= a.Length0 && n <= a.Length1 && n <= b.Length && i < n
    ensures s == b[i] - Dot(Rows(a, n)[i], b[..n], i + 1, n)
  {
    s := b[i];
    for k := i + 1 to n
      invariant s == b[i] - Dot(Rows(a, n)[i], b[..n], i + 1, k)
    {
      s := s - Times(a[i, k], b[k]);
    }
  }

  lemma HeadTail(u: Row, x: Row, i: nat, d: real)
    requires i < |u| == |x| && Times(u[i], x[i]) == d - Dot(u, x, i + 1, |x|)
    ensures Dot(u, x, i, |x|) == d
  {
    DotSplit(u, x, i, i + 1, |x|);
    assert Dot(u, x, i, i + 1) == Dot(u, x, i, i) + Times(u[i], x[i]);
  }

  /** Solves row i for its own unknown, given those below. */
  method SolveRow(a: array2<real>, b: array<real>, n: nat, i: nat, ghost r: Row)
    requires n <= a.Length0 && n <= a.Length1 && n <= b.Length && i < n == |r|
    requires Eliminated(Rows(a, n), n, n) && b[..i + 1] == r[..i + 1]
    requires forall j :: i < j < n ==> Dot(Rows(a, n)[j], b[..n], j, n) == r[j]
    modifies b
    ensures b[..i] == r[..i] && b[n..] == old(b[n..])
    ensures forall j :: i <= j < n ==> Dot(Rows(a, n)[j], b[..n], j, n) == r[j]
  {
    ghost var m, before := Rows(a, n), b[..n];
    var s := Residual(a, b, n, i);
    assert b[i] == r[..i + 1][i] && a[i, i] == m[i][i];
    var q := Divide(s, a[i, i]);
    b[i] := q;
    ghost var after := b[..n];
    DotSame(m[i], before, after, i + 1, n);
    assert after[i] == q && Times(m[i][i], q) == s;
    HeadTail(m[i], after, i, r[i]);
    forall j | i < j < n ensures Dot(m[j], after, j, n) == r[j] { DotSame(m[j], before, after, j, n); }
  }

  /** Solves the triangular system upwards; entries under the diagonal are never read. */
  method BackSubstitute(a: array2<real>, b: array<real>, n: nat)
    requires n <= a.Length0 && n <= a.Length1 && n <= b.Length
    requires Eliminated(Rows(a, n), n, n)
    modifies b
    ensures Solves(Rows(a, n), old(b[..n]), b[..n]) && b[n..] == old(b[n..])
  {
    ghost var m, r := Rows(a, n), b[..n];
    var i := n;
    while i > 0
      invariant i <= n && b[..i] == r[..i] && b[n..] == old(b[n..])
      invariant forall j :: i <= j < n ==> Dot(m[j], b[..n], j, n) == r[j]
    {
      i := i - 1;
      SolveRow(a, b, n, i, r);
    }
    forall j | 0 <= j < n ensures Dot(m[j], b[..n], 0, n) == r[j] {
      DotSplit(m[j], b[..n], 0, j, n);
      DotZero(m[j], b[..n], 0, j);
    }
  }

  /** Column c of m0 has been cleared in the rows below it down to i, with the multipliers f. */
  ghost predicate Clearing(m0: Matrix, r0: Row, m: Matrix, r: Row, n: nat, c: nat, f: Row, i: nat)
    requires Square(m0, n) && Square(m, n) && c < i <= n
  {
    && SameSolutions(m0, r0, m, r, n) && ClearedUpto(m0, m, n, c, f, i)
    && (forall j :: (0 <= j <= c || i <= j < n) ==> m[j] == m0[j])
    && (forall j, k :: c < j < i && 0 <= k <= c ==> m[j][k] == 0.0)
  }

  lemma ClearingStep(m0: Matrix, r0: Row, m: Matrix, r: Row, u: Matrix, s: Row, n: nat, c: nat, f: Row, i: nat, g: real)
    requires Square(m0, n) && Square(m, n) && Square(u, n) && c < i < n && Clearing(m0, r0, m, r, n, c, f, i)
    requires SameSolutions(m, r, u, s, n) && RowCleared(m, u, n, c, i, g) && forall k :: 0 <= k <= c ==> u[i][k] == 0.0
    requires forall j :: 0 <= j < n && j != i ==> u[j] == m[j]
    ensures Clearing(m0, r0, u, s, n, c, f[i := g], i + 1)
  {
    SameSolutionsTrans(m0, r0, m, r, u, s, n);
    ClearOneMore(m0, m, u, n, c, f, i, g);
  }

  lemma ClearingStarts(m: Matrix, r: Row, n: nat, c: nat)
    requires Square(m, n) && c < n
    ensures Clearing(m, r, m, r, n, c, seq(n, _ => 0.0), c + 1)
  {}

  lemma ClearingEnds(m0: Matrix, r0: Row, m: Matrix, r: Row, n: nat, c: nat, f: Row)
    requires Square(m0, n) && Square(m, n) && c < n && Clearing(m0, r0, m, r, n, c, f, n)
    requires Eliminated(m0, n, c) && Abs(m0[c][c]) >= PIVOT_MIN
    ensures Eliminated(m, n, c + 1) && Cleared(m0, m, n, c, f)
  {
    forall i, k | 0 <= k < c + 1 && k < i < n ensures m[i][k] == 0.0 { if i <= c { assert m[i][k] == m0[i][k]; } }
    forall k | 0 <= k < c + 1 ensures Abs(m[k][k]) >= PIVOT_MIN { assert m[k][k] == m0[k][k]; }
  }

  method ClearNext(a: array2<real>, b: array<real>, n: nat, c: nat, i: nat, ghost m0: Matrix, ghost r0: Row, ghost f: Row) returns (ghost g: real)
    requires n <= a.Length0 && n <= a.Length1 && n <= b.Length && c < i < n && Square(m0, n) && |f| == n
    requires Eliminated(m0, n, c) && Abs(m0[c][c]) >= PIVOT_MIN && Clearing(m0, r0, Rows(a, n), b[..n], n, c, f, i)
    modifies a, b
    ensures Clearing(m0, r0, Rows(a, n), b[..n], n, c, f[i := g], i + 1) && b[n..] == old(b[n..])
  {
    ghost var m, r := Rows(a, n), b[..n];
    assert m[c] == m0[c] && m[i] == m0[i];
    assert a[c, c] == m[c][c];
    forall k | 0 <= k < c ensures a[c, k] == 0.0 && a[i, k] == 0.0 { assert a[c, k] == m[c][k] && a[i, k] == m[i][k]; }
    g := EliminateRow(a, b, n, c, i);
    forall j | 0 <= j < n && j != i ensures Rows(a, n)[j] == m[j] {}
    ClearingStep(m0, r0, m, r, Rows(a, n), b[..n], n, c, f, i, g);
  }

  /** Clears column c below a pivot that is not small. */
  method ClearBelow(a: array2<real>, b: array<real>, n: nat, c: nat) returns (ghost f: Row)
    requires n <= a.Length0 && n <= a.Length1 && n <= b.Length && c < n
    requires Eliminated(Rows(a, n), n, c) && Abs(a[c, c]) >= PIVOT_MIN
    modifies a, b
    ensures SameSolutions(old(Rows(a, n)), old(b[..n]), Rows(a, n), b[..n], n)
    ensures Eliminated(Rows(a, n), n, c + 1) && b[n..] == old(b[n..])
    ensures Cleared(old(Rows(a, n)), Rows(a, n), n, c, f)
  {
    ghost var m0, r0 := Rows(a, n), b[..n];
    assert m0[c][c] == a[c, c];
    f := seq(n, _ => 0.0);
    ClearingStarts(m0, r0, n, c);
    for i := c + 1 to n
      invariant |f| == n && Clearing(m0, r0, Rows(a, n), b[..n], n, c, f, i)
      invariant b[n..] == old(b[n..])
    {
      ghost var g := ClearNext(a, b, n, c, i, m0, r0, f);
      f := f[i := g];
    }
    ClearingEnds(m0, r0, Rows(a, n), b[..n], n, c, f);
  }

  lemma PivotOfDominant(a: array2<real>, n: nat, c: nat, piv: nat)
    requires n <= a.Length0 && n <= a.Length1 && c <= piv < n && (piv == c || Abs(a[c, c]) < Abs(a[piv, c]))
    ensures Dominant(Rows(a, n), n, c) ==> piv == c && Abs(a[piv, c]) >= PIVOT_MIN
  {
    var m := Rows(a, n);
    if Dominant(m, n, c) {
      DominantPivot(m, n, c);
      assert a[c, c] == m[c][c] && a[piv, c] == m[piv][c];
    }
  }

  /** One column: choose the pivot, bring it up, clear below it. False when no entry is large enough. */
  method ReduceColumn(a: array2<real>, b: array<real>, n: nat, c: nat) returns (ok: bool)
    requires n <= a.Length0 && n <= a.Length1 && n <= b.Length && c < n
    requires Eliminated(Rows(a, n), n, c)
    modifies a, b
    ensures ok ==> SameSolutions(old(Rows(a, n)), old(b[..n]), Rows(a, n), b[..n], n)
    ensures ok ==> Eliminated(Rows(a, n), n, c + 1)
    ensures !ok ==> Rows(a, n) == old(Rows(a, n)) && b[..n] == old(b[..n])
    ensures !ok ==> forall i :: c <= i < n ==> Abs(a[i, c]) < PIVOT_MIN
    ensures Dominant(old(Rows(a, n)), n, c) ==> ok && Dominant(Rows(a, n), n, c + 1)
    ensures b[n..] == old(b[n..])
  {
    ghost var m0, r0 := Rows(a, n), b[..n];
    var piv := FindPivot(a, n, c);
    PivotOfDominant(a, n, c, piv);
    if Abs(a[piv, c]) < PIVOT_MIN { return false; }
    if piv != c {
      SwapKeepsSolutions(m0, r0, n, c, piv);
      SwapKeepsEliminated(m0, n, c, piv);
      SwapRows(a, b, n, c, piv);
    }
    ghost var m, r := Rows(a, n), b[..n];
    assert m[c] == m0[piv];
    ghost var f := ClearBelow(a, b, n, c);
    if Dominant(m0, n, c) { ClearingKeepsDominance(m, Rows(a, n), n, c, f); }
    SameSolutionsTrans(m0, r0, m, r, Rows(a, n), b[..n], n);
    return true;
  }

  /** Reduces every column in turn, or stops at one with no entry large enough. */
  method Triangularise(a: array2<real>, b: array<real>, n: nat) returns (ok: bool)
    requires n <= a.Length0 && n <= a.Length1 && n <= b.Length
    modifies a, b
    ensures ok ==> SameSolutions(old(Rows(a, n)), old(b[..n]), Rows(a, n), b[..n], n) && Eliminated(Rows(a, n), n, n)
    ensures !ok ==> exists c, m, r :: StuckAt(old(Rows(a, n)), old(b[..n]), n, c, m, r)
    ensures Dominant(old(Rows(a, n)), n, 0) ==> ok
    ensures b[n..] == old(b[n..])
  {
    ghost var m0, r0 := Rows(a, n), b[..n];
    for c := 0 to n
      invariant SameSolutions(m0, r0, Rows(a, n), b[..n], n)
      invariant Eliminated(Rows(a, n), n, c)
      invariant Dominant(m0, n, 0) ==> Dominant(Rows(a, n), n, c)
      invariant b[n..] == old(b[n..])
    {
      ghost var m, r := Rows(a, n), b[..n];
      ok := ReduceColumn(a, b, n, c);
      if !ok {
        assert StuckAt(m0, r0, n, c, m, r);
        return;
      }
      SameSolutionsTrans(m0, r0, m, r, Rows(a, n), b[..n], n);
    }
    ok := true;
  }

  lemma SolvedUniquely(m0: Matrix, r0: Row, m: Matrix, r: Row, sol: Row)
    requires SameSolutions(m0, r0, m, r, |sol|) && Solves(m, r, sol) && Eliminated(m, |sol|, |sol|)
    ensures Solves(m0, r0, sol) && forall x :: |x| == |sol| && Solves(m0, r0, x) ==> x == sol
  {
    forall x | |x| == |sol| && Solves(m0, r0, x) ensures x == sol {
      assert Solves(m, r, x);
      TriangularUnique(m, r, x, sol, 0);
    }
  }

  /** Solves a * x == b in place, leaving x in b[..n]. A matrix dominant by columns is never
      found singular. */
  method SolveDense(a: array2<real>, b: array<real>, n: nat) returns (ok: bool)
    requires n <= a.Length0 && n <= a.Length1 && n <= b.Length
    modifies a, b
    ensures ok ==> Solves(old(Rows(a, n)), old(b[..n]), b[..n])
    ensures ok ==> forall x :: |x| == n && Solves(old(Rows(a, n)), old(b[..n]), x) ==> x == b[..n]
    ensures !ok ==> exists c, m, r :: StuckAt(old(Rows(a, n)), old(b[..n]), n, c, m, r)
    ensures Dominant(old(Rows(a, n)), n, 0) ==> ok
    ensures b[n..] == old(b[n..])
  {
    ghost var m0, r0 := Rows(a, n), b[..n];
    ok := Triangularise(a, b, n);
    if ok {
      ghost var m, r := Rows(a, n), b[..n];
      BackSubstitute(a, b, n);
      SolvedUniquely(m0, r0, m, r, b[..n]);
    }
  }
}
