/** Insertion sort of a few integers, their median, and how many of them lie in a range. */
module Samples {
  ghost predicate Ascending(s: seq<int>) { forall i, j :: 0 <= i < j < |s| ==> s[i] <= s[j] }

  ghost predicate AllIn(s: seq<int>, lo: int, hi: int) { forall i :: 0 <= i < |s| ==> lo <= s[i] <= hi }

  ghost predicate NoneIn(s: seq<int>, lo: int, hi: int) { forall i :: 0 <= i < |s| ==> s[i] < lo || hi < s[i] }

  predicate Fits32(x: int) { -0x8000_0000 <= x < 0x8000_0000 }

  function Insert(s: seq<int>, v: int): (r: seq<int>)
    ensures |r| == |s| + 1
  {
    if s == [] || s[|s| - 1] <= v then s + [v] else Insert(s[..|s| - 1], v) + [s[|s| - 1]]
  }

  function Sort(s: seq<int>): (r: seq<int>)
    ensures |r| == |s|
  {
    if s == [] then [] else Insert(Sort(s[..|s| - 1]), s[|s| - 1])
  }

  function Median(s: seq<int>): int
    requires s != []
  {
    Sort(s)[|s| / 2]
  }

  lemma {:induction false} InsertBelow(s: seq<int>, v: int, lo: int, hi: int)
    requires AllIn(s, lo, hi) && lo <= v <= hi
    ensures AllIn(Insert(s, v), lo, hi)
  {
    if s != [] { InsertBelow(s[..|s| - 1], v, lo, hi); }
  }

  lemma {:induction false} InsertAscending(s: seq<int>, v: int)
    requires Ascending(s)
    ensures Ascending(Insert(s, v))
  {
    if s != [] && s[|s| - 1] > v {
      var p, last := s[..|s| - 1], s[|s| - 1];
      InsertAscending(p, v);
      InsertBelow(p, v, if p == [] || v < p[0] then v else p[0], last);
    }
  }

  lemma {:induction false} InsertPermutes(s: seq<int>, v: int)
    ensures multiset(Insert(s, v)) == multiset(s) + multiset{v}
  {
    if s != [] && s[|s| - 1] > v {
      InsertPermutes(s[..|s| - 1], v);
      assert s == s[..|s| - 1] + [s[|s| - 1]];
    }
  }

  /** Sorting gives an ascending permutation. */
  lemma {:induction false} SortSorts(s: seq<int>)
    ensures Ascending(Sort(s)) && multiset(Sort(s)) == multiset(s)
  {
    if s != [] {
      SortSorts(s[..|s| - 1]);
      InsertAscending(Sort(s[..|s| - 1]), s[|s| - 1]);
      InsertPermutes(Sort(s[..|s| - 1]), s[|s| - 1]);
      assert s == s[..|s| - 1] + [s[|s| - 1]];
    }
  }

  lemma {:induction false} SortWithin(s: seq<int>, lo: int, hi: int)
    requires AllIn(s, lo, hi)
    ensures AllIn(Sort(s), lo, hi)
  {
    if s != [] {
      SortWithin(s[..|s| - 1], lo, hi);
      InsertBelow(Sort(s[..|s| - 1]), s[|s| - 1], lo, hi);
    }
  }

  lemma MedianIn(s: seq<int>)
    requires s != []
    ensures Median(s) in s
  {
    SortSorts(s);
    assert Median(s) in multiset(Sort(s));
    assert Median(s) in multiset(s);
  }

  /** Moves the last of the first i + 1 elements down to its place among the i sorted ones. */
  method SiftDown(a: array<int>, i: nat)
    requires i < a.Length
    modifies a
    ensures a[..] == Insert(old(a[..i]), old(a[i])) + old(a[i + 1..])
  {
    ghost var was, p := a[..], a[..i];
    var key := a[i];
    var j := i;
    assert p[..j] == p && p[j..] == [];
    while j > 0 && a[j - 1] > key
      invariant j <= i
      invariant forall k :: 0 <= k < a.Length && (k < j || k > i) ==> a[k] == was[k]
      invariant forall k :: j < k <= i ==> a[k] == was[k - 1]
      invariant Insert(p, key) == Insert(p[..j], key) + p[j..]
    {
      InsertLast(p, j, key);
      a[j] := a[j - 1];
      j := j - 1;
    }
    a[j] := key;
    Shifted(was, i, j, a[..], Insert(p, key));
  }

  lemma Shifted(was: seq<int>, i: nat, j: nat, now: seq<int>, ins: seq<int>)
    requires j <= i < |was| == |now| && ins == was[..j] + [was[i]] + was[j..i] && now[j] == was[i]
    requires forall k :: 0 <= k < |now| && (k < j || k > i) ==> now[k] == was[k]
    requires forall k :: j < k <= i ==> now[k] == was[k - 1]
    ensures now == ins + was[i + 1..]
  {}

  lemma InsertLast(p: seq<int>, j: nat, key: int)
    requires 0 < j <= |p| && p[j - 1] > key
    ensures Insert(p[..j], key) + p[j..] == Insert(p[..j - 1], key) + p[j - 1..]
  {
    assert p[..j][..j - 1] == p[..j - 1];
    assert p[j - 1..] == [p[j - 1]] + p[j..];
  }

  method SortInPlace(a: array<int>)
    modifies a
    ensures a[..] == Sort(old(a[..]))
  {
    ghost var was := a[..];
    var i := 0;
    if a.Length > 0 { i := 1; }
    assert was[..i] == Sort(was[..i]) by { if i == 1 { assert was[..1][..0] == []; } }
    while i < a.Length
      invariant i <= a.Length && a[..] == Sort(was[..i]) + was[i..]
    {
      assert a[..i] == Sort(was[..i]) && a[i] == was[i] && a[i + 1..] == was[i + 1..];
      SiftDown(a, i);
      assert was[..i + 1][..i] == was[..i];
      i := i + 1;
    }
    assert was[..i] == was;
  }

  method SortedCopy(samples: array<int>, n: nat) returns (work: array<int>)
    requires n <= samples.Length
    ensures work[..] == Sort(samples[..n]) && fresh(work)
  {
    work := new int[n](i requires 0 <= i < n reads samples => samples[i]);
    assert work[..] == samples[..n];
    SortInPlace(work);
  }

  // ---- How many lie in a range ----

  function Within(s: seq<int>, lo: int, hi: int): (n: nat)
    ensures n <= |s|
  {
    if s == [] then 0 else Within(s[..|s| - 1], lo, hi) + (if lo <= s[|s| - 1] <= hi then 1 else 0)
  }

  lemma {:induction false} WithinConcat(s: seq<int>, t: seq<int>, lo: int, hi: int)
    ensures Within(s + t, lo, hi) == Within(s, lo, hi) + Within(t, lo, hi)
  {
    if t == [] {
      assert s + t == s;
    } else {
      assert (s + t)[..|s + t| - 1] == s + t[..|t| - 1];
      WithinConcat(s, t[..|t| - 1], lo, hi);
    }
  }

  lemma {:induction false} WithinInsert(s: seq<int>, v: int, lo: int, hi: int)
    ensures Within(Insert(s, v), lo, hi) == Within(s, lo, hi) + (if lo <= v <= hi then 1 else 0)
  {
    if s == [] || s[|s| - 1] <= v {
      assert (s + [v])[..|s|] == s;
    } else {
      var p := Insert(s[..|s| - 1], v);
      WithinInsert(s[..|s| - 1], v, lo, hi);
      assert (p + [s[|s| - 1]])[..|p|] == p;
    }
  }

  lemma {:induction false} WithinSort(s: seq<int>, lo: int, hi: int)
    ensures Within(Sort(s), lo, hi) == Within(s, lo, hi)
  {
    if s != [] {
      WithinSort(s[..|s| - 1], lo, hi);
      WithinInsert(Sort(s[..|s| - 1]), s[|s| - 1], lo, hi);
    }
  }

  lemma {:induction false} WithinNone(s: seq<int>, lo: int, hi: int)
    requires NoneIn(s, lo, hi)
    ensures Within(s, lo, hi) == 0
  {
    if s != [] { WithinNone(s[..|s| - 1], lo, hi); }
  }

  lemma {:induction false} WithinAll(s: seq<int>, lo: int, hi: int)
    requires AllIn(s, lo, hi)
    ensures Within(s, lo, hi) == |s|
  {
    if s != [] { WithinAll(s[..|s| - 1], lo, hi); }
  }

  lemma WithinSplit(w: seq<int>, h: nat, lo: int, hi: int)
    requires h <= |w|
    ensures Within(w, lo, hi) == Within(w[..h], lo, hi) + Within(w[h..], lo, hi)
  {
    assert w == w[..h] + w[h..];
    WithinConcat(w[..h], w[h..], lo, hi);
  }

  lemma NoneAbove(w: seq<int>, h: nat, lo: int, hi: int)
    requires h < |w| && Ascending(w) && w[h] > hi
    ensures Within(w, lo, hi) <= h
  {
    WithinSplit(w, h, lo, hi);
    WithinNone(w[h..], lo, hi);
  }

  lemma NoneBelow(w: seq<int>, h: nat, lo: int, hi: int)
    requires h < |w| && Ascending(w) && w[h] < lo
    ensures Within(w, lo, hi) <= |w| - h - 1
  {
    WithinSplit(w, h + 1, lo, hi);
    WithinNone(w[..h + 1], lo, hi);
  }

  lemma MajorityHoldsMiddle(w: seq<int>, lo: int, hi: int)
    requires w != [] && Ascending(w) && Within(w, lo, hi) >= |w| / 2 + 1
    ensures lo <= w[|w| / 2] <= hi
  {
    var h := |w| / 2;
    if w[h] > hi { NoneAbove(w, h, lo, hi); }
    if w[h] < lo { NoneBelow(w, h, lo, hi); }
  }

  /** A range that holds more than half of the samples holds their median. */
  lemma MajorityHoldsMedian(s: seq<int>, lo: int, hi: int)
    requires s != [] && Within(s, lo, hi) >= |s| / 2 + 1
    ensures lo <= Median(s) <= hi
  {
    SortSorts(s);
    WithinSort(s, lo, hi);
    MajorityHoldsMiddle(Sort(s), lo, hi);
  }

  lemma MiddleCoversMajority(w: seq<int>, lo: int, hi: int)
    requires w != [] && Ascending(w) && AllIn(w, lo, hi)
    ensures Within(w, lo, w[|w| / 2]) >= |w| / 2 + 1
  {
    var h := |w| / 2;
    WithinSplit(w, h + 1, lo, w[h]);
    WithinAll(w[..h + 1], lo, w[h]);
  }

  /** More than half of the samples are no larger than their median. */
  lemma MedianCoversMajority(s: seq<int>, lo: int, hi: int)
    requires s != [] && AllIn(s, lo, hi)
    ensures Within(s, lo, Median(s)) >= |s| / 2 + 1
  {
    SortSorts(s);
    SortWithin(s, lo, hi);
    WithinSort(s, lo, Median(s));
    MiddleCoversMajority(Sort(s), lo, hi);
  }

  // ---- Averages ----

  function Sum(s: seq<int>): int { if s == [] then 0 else Sum(s[..|s| - 1]) + s[|s| - 1] }

  /** The division of C: the quotient is truncated toward zero. */
  function TruncDiv(a: int, b: int): int
    requires b > 0
  {
    if a >= 0 then a / b else -((-a) / b)
  }

  function Abs(x: int): nat { if x < 0 then -x else x }

  /** The samples no further than a limit from a centre, in order. */
  function Near(s: seq<int>, centre: int, limit: int): (r: seq<int>)
    ensures |r| <= |s| && forall x :: x in r <==> x in s && Abs(x - centre) <= limit
  {
    if s == [] then []
    else
      var x := s[|s| - 1];
      var r := Near(s[..|s| - 1], centre, limit);
      assert s == s[..|s| - 1] + [x];
      if Abs(x - centre) <= limit then r + [x] else r
  }

  lemma {:induction false} NearIsWithin(s: seq<int>, centre: int, limit: int)
    ensures |Near(s, centre, limit)| == Within(s, centre - limit, centre + limit)
  {
    if s != [] { NearIsWithin(s[..|s| - 1], centre, limit); }
  }

  /** Exactly the samples within the limit are near, each as often as it occurs. */
  lemma {:induction false} NearCounts(s: seq<int>, centre: int, limit: int, v: int)
    ensures multiset(Near(s, centre, limit))[v] == if -limit <= v - centre <= limit then multiset(s)[v] else 0
  {
    if s != [] {
      var front, last := s[..|s| - 1], s[|s| - 1];
      NearCounts(front, centre, limit, v);
      assert s == front + [last];
    }
  }

  lemma {:induction false} SumBounds(s: seq<int>, lo: int, hi: int)
    requires AllIn(s, lo, hi)
    ensures lo * |s| <= Sum(s) <= hi * |s|
  {
    if s != [] {
      SumBounds(s[..|s| - 1], lo, hi);
      NextMultiple(lo, |s| - 1);
      NextMultiple(hi, |s| - 1);
    }
  }

  lemma NextMultiple(a: int, k: nat)
    ensures a * (k + 1) == a * k + a
  {}

  /** The truncated mean of integers between two integers lies between them. */
  lemma MeanBounds(s: seq<int>, lo: int, hi: int)
    requires s != [] && AllIn(s, lo, hi)
    ensures lo <= TruncDiv(Sum(s), |s|) <= hi
  {
    SumBounds(s, lo, hi);
    QuotientBounds(Sum(s), |s|, lo, hi);
  }

  lemma QuotientBounds(a: int, b: int, lo: int, hi: int)
    requires b > 0 && lo * b <= a <= hi * b
    ensures lo <= TruncDiv(a, b) <= hi
  {
    TruncRemainder(a, b);
    var q := TruncDiv(a, b);
    if q < lo { MultipleGap(q + 1, lo, b); NextMultiple2(q, b); }
    if q > hi { MultipleGap(hi, q - 1, b); NextMultiple2(q - 1, b); }
  }

  lemma MultipleGap(x: int, y: int, b: int)
    requires x <= y && b > 0
    ensures x * b <= y * b
  {}

  lemma NextMultiple2(q: int, b: int)
    ensures (q + 1) * b == q * b + b
  {}

  /** Truncation leaves less than one divisor, on the side of the dividend. */
  lemma TruncRemainder(a: int, b: int)
    requires b > 0
    ensures var r := a - TruncDiv(a, b) * b; Abs(r) < b && (a >= 0 ==> r >= 0) && (a <= 0 ==> r <= 0)
  {
    if a < 0 {
      var q := (-a) / b;
      assert -a == q * b + (-a) % b;
      assert (-q) * b == -(q * b);
    } else {
      assert a == (a / b) * b + a % b;
    }
  }
}
