/** The gateway's working set for one survey: the anchors that answered enumeration and every
    directed range reported back. */
module SurveyTable {

  import opened Options
  import opened SurveyFit
  import opened Pigeonhole

  const MAX_MEAS: nat := 56

  type Eui = nat

  datatype Peer = Peer(eui: Eui, addr: nat, posValid: bool, x: real, y: real, z: real)

  /** One anchor's report of ranging one peer: from polled to. */
  datatype Meas = Meas(from: nat, to: nat, mean: int, sd: nat, nOk: nat)

  datatype Contents = Contents(peers: seq<Peer>, meas: seq<Meas>)

  datatype AddResult = Slot(k: nat) | AddrInUse | NoSpace

  // ---- Lookups ----

  /** Index of the first peer with this identifier, or |peers|. */
  function EuiIndex(peers: seq<Peer>, eui: Eui): (k: nat)
    ensures k <= |peers|
    ensures k < |peers| ==> peers[k].eui == eui
    ensures forall j :: 0 <= j < k ==> peers[j].eui != eui
  {
    if |peers| == 0 then 0 else if peers[0].eui == eui then 0 else 1 + EuiIndex(peers[1..], eui)
  }

  /** Index of the first peer with this short address, or |peers|. */
  function AddrIndex(peers: seq<Peer>, addr: nat): (k: nat)
    ensures k <= |peers|
    ensures k < |peers| ==> peers[k].addr == addr
    ensures forall j :: 0 <= j < k ==> peers[j].addr != addr
  {
    if |peers| == 0 then 0 else if peers[0].addr == addr then 0 else 1 + AddrIndex(peers[1..], addr)
  }

  function FindAddr(peers: seq<Peer>, addr: nat): Option<nat> {
    var k := AddrIndex(peers, addr);
    if k < |peers| then Some(k) else None
  }

  /** Index of the stored measurement of one ordered pair, or |meas|. */
  function KeyIndex(meas: seq<Meas>, from: nat, to: nat): (k: nat)
    ensures k <= |meas|
    ensures k < |meas| ==> meas[k].from == from && meas[k].to == to
    ensures forall j :: 0 <= j < k ==> !(meas[j].from == from && meas[j].to == to)
  {
    if |meas| == 0 then 0
    else if meas[0].from == from && meas[0].to == to then 0 else 1 + KeyIndex(meas[1..], from, to)
  }

  // ---- What one registration and one report do ----

  function AddPeer(t: Contents, p: Peer): (Contents, AddResult) {
    var e := EuiIndex(t.peers, p.eui);
    if exists k :: 0 <= k < |t.peers| && k != e && t.peers[k].addr == p.addr then (t, AddrInUse)
    else if e < |t.peers| then (t.(peers := t.peers[e := p]), Slot(e))
    else if |t.peers| >= MAX_NODES then (t, NoSpace)
    else (t.(peers := t.peers + [p]), Slot(e))
  }

  datatype MeasResult = Stored | BadPair | Full

  function AddMeas(t: Contents, m: Meas): (Contents, MeasResult) {
    if m.from == m.to || m.from >= |t.peers| || m.to >= |t.peers| then (t, BadPair)
    else
      var k := KeyIndex(t.meas, m.from, m.to);
      if k < |t.meas| then (t.(meas := t.meas[k := m]), Stored)
      else if |t.meas| >= MAX_MEAS then (t, Full)
      else (t.(meas := t.meas + [m]), Stored)
  }

  // ---- What every operation keeps ----

  ghost predicate DistinctPeers(peers: seq<Peer>) {
    forall i, j :: 0 <= i < j < |peers| ==> peers[i].addr != peers[j].addr && peers[i].eui != peers[j].eui
  }

  ghost predicate DistinctKeys(meas: seq<Meas>) {
    forall i, j :: 0 <= i < j < |meas| ==> meas[i].from != meas[j].from || meas[i].to != meas[j].to
  }

  ghost predicate Valid(t: Contents) {
    && |t.peers| <= MAX_NODES && DistinctPeers(t.peers) && DistinctKeys(t.meas)
    && forall m :: m in t.meas ==> m.from != m.to && m.from < |t.peers| && m.to < |t.peers|
  }

  lemma FindAddrOfPeer(peers: seq<Peer>, k: nat)
    requires DistinctPeers(peers) && k < |peers|
    ensures FindAddr(peers, peers[k].addr) == Some(k)
  {
    var j := AddrIndex(peers, peers[k].addr);
    assert j <= k && peers[j].addr == peers[k].addr;
  }

  /** after is before with the row of p's board, k, set to p; a new board gets a new last row. */
  ghost predicate OneRowChanged(before: seq<Peer>, p: Peer, k: nat, after: seq<Peer>) {
    && k < |after| && after[k] == p && |before| <= |after| <= |before| + 1
    && (forall j :: 0 <= j < |before| && j != k ==> after[j] == before[j])
    && (k < |before| ==> |after| == |before| && before[k].eui == p.eui)
    && (k >= |before| ==> k == |before| && |after| == k + 1 && forall q :: q in before ==> q.eui != p.eui)
  }

  /** Registering keeps addresses and identifiers pairwise distinct, is refused exactly when
      another board holds the address (or there is no room for a new one), and otherwise
      changes that board's row and no other. */
  lemma AddPeerKeeps(t: Contents, p: Peer)
    requires Valid(t)
    ensures var (u, r) := AddPeer(t, p);
      && Valid(u) && u.meas == t.meas
      && (r == AddrInUse <==> exists q :: q in t.peers && q.addr == p.addr && q.eui != p.eui)
      && (!r.Slot? ==> u == t)
      && (r.Slot? ==> OneRowChanged(t.peers, p, r.k, u.peers))
  {
    var e := EuiIndex(t.peers, p.eui);
    if k :| 0 <= k < |t.peers| && k != e && t.peers[k].addr == p.addr {
      assert t.peers[k] in t.peers && t.peers[k].eui != p.eui;
    }
  }

  /** A board that answers twice keeps its row: the second answer, at the same or another
      address, has the effect it would have had without the first, unless another board holds
      its address, and then the first one stands. */
  lemma AddPeerTwice(t: Contents, p: Peer, q: Peer)
    requires Valid(t) && p.eui == q.eui && AddPeer(t, p).1.Slot?
    ensures var u := AddPeer(t, p).0;
      && (AddPeer(u, q).1 == AddrInUse <==> AddPeer(t, q).1 == AddrInUse)
      && (AddPeer(u, q).1 == AddrInUse ==> AddPeer(u, q).0 == u && p.addr != q.addr)
      && (AddPeer(u, q).1 != AddrInUse ==> AddPeer(u, q) == AddPeer(t, q) && AddPeer(u, q).1 == AddPeer(t, p).1)
  {
    AddPeerKeeps(t, p);
    var (u, r) := AddPeer(t, p);
    AddPeerKeeps(u, q);
    AddPeerKeeps(t, q);
    OthersStay(t, p, u, r.k, q.addr);
    var e := EuiIndex(u.peers, q.eui);
    assert u.peers[r.k].eui == q.eui;
    assert e == r.k;
    if AddPeer(u, q).1 != AddrInUse { assert u.peers[r.k := q] == AddPeer(t, q).0.peers; }
  }

  /** The same other boards hold an address before and after one board's registration. */
  lemma OthersStay(t: Contents, p: Peer, u: Contents, k: nat, addr: nat)
    requires Valid(t) && Valid(u) && OneRowChanged(t.peers, p, k, u.peers)
    ensures (exists o :: o in t.peers && o.addr == addr && o.eui != p.eui) <==> (exists o :: o in u.peers && o.addr == addr && o.eui != p.eui)
  {
    if o :| o in t.peers && o.addr == addr && o.eui != p.eui {
      var j :| 0 <= j < |t.peers| && t.peers[j] == o;
      assert u.peers[j] == o && o in u.peers;
    }
    if o :| o in u.peers && o.addr == addr && o.eui != p.eui {
      var j :| 0 <= j < |u.peers| && u.peers[j] == o;
      assert j != k && t.peers[j] == o && o in t.peers;
    }
  }

  // ---- Ordered pairs of nodes, numbered row by row without the diagonal ----

  datatype Pair = Pair(from: nat, to: nat)

  function PairOf(idx: nat, n: nat): Pair
    requires n >= 2
  {
    var from := idx / (n - 1);
    var col := idx % (n - 1);
    Pair(from, if col >= from then col + 1 else col)
  }

  function PairIndex(p: Pair, n: nat): nat
    requires p.from != p.to
    requires n >= 2
  {
    p.from * (n - 1) + (if p.to > p.from then p.to - 1 else p.to)
  }

  lemma SmallMultiple(z: int, d: int)
    requires d > 0 && -d < z * d < d
    ensures z == 0
  {
    assert z >= 1 ==> z * d >= d;
    assert z <= -1 ==> z * d <= -d;
  }

  lemma DivModUnique(q: nat, r: nat, d: nat)
    requires r < d
    ensures (q * d + r) / d == q && (q * d + r) % d == r
  {
    var x := q * d + r;
    var z := q - x / d;
    assert x == (x / d) * d + x % d;
    assert z * d == x % d - r;
    SmallMultiple(z, d);
  }

  lemma TimesMonotone(a: nat, b: nat, d: nat)
    requires a <= b
    ensures a * d <= b * d
  {}

  lemma RowOf(idx: nat, d: nat, n: nat)
    requires d > 0 && idx < n * d
    ensures idx == (idx / d) * d + idx % d && idx / d < n
  {
    if n <= idx / d { TimesMonotone(n, idx / d, d); }
  }

  /** The numbering is a bijection between [0, n(n-1)) and the ordered pairs of distinct nodes. */
  lemma PairOfBijection(idx: nat, n: nat)
    requires n >= 2 && idx < n * (n - 1)
    ensures var p := PairOf(idx, n); p.from < n && p.to < n && p.from != p.to && PairIndex(p, n) == idx
  {
    var p := PairOf(idx, n);
    RowOf(idx, n - 1, n);
  }

  lemma PairIndexBijection(p: Pair, n: nat)
    requires n >= 2 && p.from < n && p.to < n && p.from != p.to
    ensures PairIndex(p, n) < n * (n - 1) && PairOf(PairIndex(p, n), n) == p
  {
    var r := if p.to > p.from then p.to - 1 else p.to;
    DivModUnique(p.from, r, n - 1);
    assert p.from * (n - 1) + (n - 1) == (p.from + 1) * (n - 1);
    assert (p.from + 1) * (n - 1) <= n * (n - 1);
  }

  // ---- A report always fits ----

  /** Distinct ordered pairs of n nodes number n(n-1) at most. */
  lemma KeysFit(ms: seq<Meas>, n: nat)
    requires n >= 2 && DistinctKeys(ms)
    requires forall m :: m in ms ==> m.from != m.to && m.from < n && m.to < n
    ensures |ms| <= n * (n - 1)
  {
    var keys: seq<nat> := seq(|ms|, i requires 0 <= i < |ms| => PairIndex(Pair(ms[i].from, ms[i].to), n));
    forall i | 0 <= i < |ms| ensures keys[i] < n * (n - 1) && PairOf(keys[i], n) == Pair(ms[i].from, ms[i].to) {
      assert ms[i] in ms;
      PairIndexBijection(Pair(ms[i].from, ms[i].to), n);
    }
    forall i, j | 0 <= i < j < |ms| ensures keys[i] != keys[j] {
      assert PairOf(keys[i], n) != PairOf(keys[j], n);
    }
    DistinctBelow(keys, n * (n - 1));
  }

  lemma EightBySeven(n: nat)
    requires n <= 8
    ensures n >= 1 ==> n * (n - 1) <= 56
  {}

  lemma ReplaceAt(ms: seq<Meas>, k: nat, m: Meas)
    requires DistinctKeys(ms) && k < |ms| && ms[k].from == m.from && ms[k].to == m.to
    ensures DistinctKeys(ms[k := m])
    ensures forall x :: x in ms[k := m] <==> x == m || (x in ms && !(x.from == m.from && x.to == m.to))
  {
    var u := ms[k := m];
    assert u[k] == m;
    forall x ensures x in u <==> x == m || (x in ms && !(x.from == m.from && x.to == m.to)) {
      if x in ms && !(x.from == m.from && x.to == m.to) {
        var i :| 0 <= i < |ms| && ms[i] == x;
        assert u[i] == x;
      }
    }
  }

  /** With at most eight anchors the store of measurements is never too small: a report about
      two known anchors is always kept, replaces an earlier one for the same ordered pair, and
      leaves the others alone. */
  lemma AddMeasKeeps(t: Contents, m: Meas)
    requires Valid(t)
    ensures var (u, r) := AddMeas(t, m);
      && Valid(u) && u.peers == t.peers && r != Full
      && (r == BadPair <==> m.from == m.to || m.from >= |t.peers| || m.to >= |t.peers|)
      && (r == BadPair ==> u == t)
      && (r == Stored ==> forall x :: x in u.meas <==> x == m || (x in t.meas && !(x.from == m.from && x.to == m.to)))
  {
    if !(m.from == m.to || m.from >= |t.peers| || m.to >= |t.peers|) {
      var k := KeyIndex(t.meas, m.from, m.to);
      if k == |t.meas| {
        KeysFit(t.meas + [m], |t.peers|);
        EightBySeven(|t.peers|);
      } else {
        ReplaceAt(t.meas, k, m);
      }
    }
  }

  // ---- The table as the gateway updates it ----

  class Table {
    var peers: seq<Peer>
    var meas: seq<Meas>

    ghost function Value(): Contents
      reads this
    {
      Contents(peers, meas)
    }

    constructor ()
      ensures Value() == Contents([], [])
    {
      peers, meas := [], [];
    }

    method Clear()
      modifies this
      ensures Value() == Contents([], [])
    {
      peers, meas := [], [];
    }

    method IndexOfEui(eui: Eui) returns (k: nat)
      ensures k == EuiIndex(peers, eui)
    {
      k := 0;
      while k < |peers|
        invariant k <= |peers| && forall j :: 0 <= j < k ==> peers[j].eui != eui
      {
        if peers[k].eui == eui { return; }
        k := k + 1;
      }
    }

    method IndexOfAddr(addr: nat) returns (r: Option<nat>)
      ensures r == FindAddr(peers, addr)
    {
      var k := 0;
      while k < |peers|
        invariant k <= |peers| && forall j :: 0 <= j < k ==> peers[j].addr != addr
      {
        if peers[k].addr == addr { return Some(k); }
        k := k + 1;
      }
      return None;
    }

    method PutPeer(p: Peer) returns (r: AddResult)
      modifies this
      ensures (Value(), r) == AddPeer(old(Value()), p)
    {
      var e := IndexOfEui(p.eui);
      for k := 0 to |peers|
        invariant forall j :: 0 <= j < k && j != e ==> peers[j].addr != p.addr
      {
        if peers[k].addr == p.addr && k != e { return AddrInUse; }
      }
      if e < |peers| {
        peers := peers[e := p];
      } else {
        if |peers| >= MAX_NODES { return NoSpace; }
        peers := peers + [p];
      }
      return Slot(e);
    }

    method PutMeas(m: Meas) returns (r: MeasResult)
      modifies this
      ensures (Value(), r) == AddMeas(old(Value()), m)
    {
      if m.from == m.to || m.from >= |peers| || m.to >= |peers| { return BadPair; }
      for k := 0 to |meas|
        invariant forall j :: 0 <= j < k ==> !(meas[j].from == m.from && meas[j].to == m.to)
        invariant Value() == old(Value())
      {
        if meas[k].from == m.from && meas[k].to == m.to {
          meas := meas[k := m];
          return Stored;
        }
      }
      if |meas| >= MAX_MEAS { return Full; }
      meas := meas + [m];
      return Stored;
    }
  }
}
