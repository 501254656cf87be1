/** The pigeonhole principle for sequences. */
module Pigeonhole {
  ghost function Upto(n: nat): (s: set<nat>)
    ensures |s| == n && forall k :: k in s <==> 0 <= k < n
  {
    if n == 0 then {} else Upto(n - 1) + {n - 1}
  }

  lemma {:induction false} DistinctBelow(s: seq<nat>, n: nat)
    requires forall i :: 0 <= i < |s| ==> s[i] < n
    requires forall i, j :: 0 <= i < j < |s| ==> s[i] != s[j]
    ensures |s| <= n
  {
    var t := SeqSet(s);
    assert t <= Upto(n);
    SubsetSize(t, Upto(n));
  }

  lemma {:induction false} SeqSet(s: seq<nat>) returns (t: set<nat>)
    requires forall i, j :: 0 <= i < j < |s| ==> s[i] != s[j]
    ensures |t| == |s| && forall x :: x in t <==> x in s
  {
    if |s| == 0 {
      t := {};
    } else {
      var u := SeqSet(s[..|s| - 1]);
      assert s == s[..|s| - 1] + [s[|s| - 1]];
      t := u + {s[|s| - 1]};
    }
  }

  lemma {:induction false} SubsetSize(a: set<nat>, b: set<nat>)
    requires a <= b
    ensures |a| <= |b|
  {
    if a != {} {
      var x :| x in a;
      SubsetSize(a - {x}, b - {x});
    }
  }
}
