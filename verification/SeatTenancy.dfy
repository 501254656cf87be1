/** What a tag sees of its seat: an address that is not reused too soon, and a slot it finds in
    every beacon for as long as its lease runs. */
module SeatTenancy {
  import opened Addresses
  import opened Options
  import opened SeatTable
  import opened SeatRuns

  // ---- Reuse of addresses ----

  /** The addresses taken from the pool over a run, in order. */
  function Issued(c: Core, es: seq<Event>): seq<nat>
    decreases |es|
  {
    if es == [] then []
    else
      var rest := Issued(After(c, es[0]), es[1..]);
      match NewAddr(c, es[0]) case Some(a) => [a] + rest case None => rest
  }

  /** Increasing positions, at most eleven apart, holding the given addresses. */
  ghost predicate Holds(ps: seq<nat>, addrs: seq<nat>) {
    && |ps| == |addrs|
    && (forall i :: 0 <= i < |ps| ==> addrs[i] == AddrAt(ps[i]))
    && (forall i :: 0 <= i < |ps| - 1 ==> ps[i] < ps[i + 1] <= ps[i] + 11)
  }

  lemma CursorMoves(c: Core, v: nat, e: Event) returns (k: nat)
    requires Inv(c) && c.next == AddrAt(v)
    ensures NewAddr(c, e).None? ==> After(c, e).next == AddrAt(v)
    ensures NewAddr(c, e).Some? ==> k <= 10 && NewAddr(c, e) == Some(AddrAt(v + k)) && After(c, e).next == AddrAt(v + k + 1)
  {
    k := 0;
    if NewAddr(c, e).Some? { k := AllocSucceeds(c, v); }
  }

  lemma Prepend(p: nat, ps: seq<nat>, a: nat, addrs: seq<nat>)
    requires Holds(ps, addrs) && a == AddrAt(p) && (ps != [] ==> p < ps[0] <= p + 11)
    ensures Holds([p] + ps, [a] + addrs)
  {}

  lemma {:induction false} IssuedPositions(c: Core, v: nat, es: seq<Event>) returns (ps: seq<nat>)
    requires Inv(c) && c.next == AddrAt(v)
    ensures Holds(ps, Issued(c, es)) && (ps != [] ==> v <= ps[0] <= v + 10)
    decreases |es|
  {
    if es == [] {
      ps := [];
    } else {
      var k := CursorMoves(c, v, es[0]);
      AfterKeeps(c, es[0]);
      if NewAddr(c, es[0]).Some? {
        var rest := IssuedPositions(After(c, es[0]), v + k + 1, es[1..]);
        Prepend(v + k, rest, AddrAt(v + k), Issued(After(c, es[0]), es[1..]));
        ps := [v + k] + rest;
      } else {
        ps := IssuedPositions(After(c, es[0]), v, es[1..]);
      }
    }
  }

  lemma {:induction false} Gaps(ps: seq<nat>, addrs: seq<nat>, i: nat, j: nat)
    requires Holds(ps, addrs) && i <= j < |ps|
    ensures ps[i] + (j - i) <= ps[j] <= ps[i] + 11 * (j - i)
  {
    if i < j { Gaps(ps, addrs, i, j - 1); }
  }

  /** Of any 5935 successive allocations, no two issue the same address. */
  lemma NoEarlyReuse(c: Core, es: seq<Event>, i: nat, j: nat)
    requires Inv(c) && i < j < |Issued(c, es)| && j - i <= 5934
    ensures Issued(c, es)[i] != Issued(c, es)[j]
  {
    var v := PositionOf(c.next);
    var ps := IssuedPositions(c, v, es);
    Gaps(ps, Issued(c, es), i, j);
    NearbyDiffer(ps[i], ps[j]);
  }

  // ---- A tenancy ----

  /** What is left of the lease of (addr, eui) after an event; once it has run out it stays out. */
  function LeaseAfter(left: nat, e: Event, addr: nat, eui: Eui): nat {
    if left == 0 then 0
    else match e
      case DoJoin(u, _) => if u == eui then LEASE else left
      case DoKeepalive(a, _) => if a == addr then LEASE else left
      case DoRelease(a) => if a == addr then 0 else left
      case DoTick => left - 1
  }

  function LeaseOver(left: nat, es: seq<Event>, addr: nat, eui: Eui): nat
    decreases |es|
  {
    if es == [] then left else LeaseOver(LeaseAfter(left, es[0], addr, eui), es[1..], addr, eui)
  }

  ghost predicate Seats(c: Core, k: nat, addr: nat, eui: Eui, left: nat) {
    k < |c.seats| && addr != 0 && c.seats[k].addr == addr && c.seats[k].eui == eui && c.seats[k].lease == left
  }

  ghost predicate Absent(c: Core, addr: nat) { forall s :: s in c.seats ==> s.addr != addr }

  lemma OnlySeat(c: Core, k: nat, addr: nat, eui: Eui, left: nat)
    requires Inv(c) && Seats(c, k, addr, eui, left)
    ensures SeatOfAddr(c.seats, addr) == k && SeatOfEui(c.seats, eui) == k
    ensures forall j :: 0 <= j < N_SEATS && j != k ==> c.seats[j].addr != addr
  {
    forall j | 0 <= j < N_SEATS && j != k ensures Apart(c.seats[j], c.seats[k]) {
      if j < k { assert Apart(c.seats[j], c.seats[k]); } else { assert Apart(c.seats[k], c.seats[j]); }
    }
    var a, u := SeatOfAddr(c.seats, addr), SeatOfEui(c.seats, eui);
    assert a <= k && u <= k;
  }

  lemma JoinStep(c: Core, u: Eui, tier: nat, k: nat, addr: nat, eui: Eui, left: nat)
    requires Inv(c) && Seats(c, k, addr, eui, left)
    ensures Seats(Joined(c, u, tier).0, k, addr, eui, if u == eui then LEASE else left)
  {
    OnlySeat(c, k, addr, eui, left);
    var i := SeatOfEui(c.seats, u);
    if u != eui && i < N_SEATS { assert i != k; }
    if u != eui && i == N_SEATS { assert FreeSeat(c.seats) != k; }
  }

  lemma KeepaliveStep(c: Core, a: nat, tier: nat, k: nat, addr: nat, eui: Eui, left: nat)
    requires Inv(c) && Seats(c, k, addr, eui, left)
    ensures Seats(Refreshed(c, a, tier), k, addr, eui, if a == addr then LEASE else left)
  {
    OnlySeat(c, k, addr, eui, left);
    if a != addr { assert SeatOfAddr(c.seats, a) != k; }
  }

  lemma ReleaseStep(c: Core, a: nat, k: nat, addr: nat, eui: Eui, left: nat)
    requires Inv(c) && Seats(c, k, addr, eui, left)
    ensures if a == addr then Absent(Released(c, a), addr) else Seats(Released(c, a), k, addr, eui, left)
  {
    OnlySeat(c, k, addr, eui, left);
    if a == addr { Vacated(c, k, addr); } else { assert SeatOfAddr(c.seats, a) != k; }
  }

  lemma TickStep(c: Core, k: nat, addr: nat, eui: Eui, left: nat)
    requires Inv(c) && Seats(c, k, addr, eui, left)
    ensures left > 0
    ensures if left == 1 then Absent(Ticked(c), addr) else Seats(Ticked(c), k, addr, eui, left - 1)
  {
    OnlySeat(c, k, addr, eui, left);
    assert SeatOk(c.seats[k]);
    if left == 1 { VacatedByTick(c, k, addr); }
  }

  lemma SeatStep(c: Core, e: Event, k: nat, addr: nat, eui: Eui, left: nat)
    requires Inv(c) && Seats(c, k, addr, eui, left)
    ensures var after := LeaseAfter(left, e, addr, eui);
      if after > 0 then Seats(After(c, e), k, addr, eui, after) else Absent(After(c, e), addr)
  {
    TickStep(c, k, addr, eui, left);
    match e {
      case DoJoin(u, tier) => JoinStep(c, u, tier, k, addr, eui, left);
      case DoKeepalive(a, tier) => KeepaliveStep(c, a, tier, k, addr, eui, left);
      case DoRelease(a) => ReleaseStep(c, a, k, addr, eui, left);
      case DoTick =>
    }
  }

  lemma Vacated(c: Core, k: nat, addr: nat)
    requires k < |c.seats| && addr != 0 && forall j :: 0 <= j < |c.seats| && j != k ==> c.seats[j].addr != addr
    ensures Absent(c.(seats := c.seats[k := FREE_SEAT]), addr)
  {}

  lemma VacatedByTick(c: Core, k: nat, addr: nat)
    requires k < |c.seats| && addr != 0 && c.seats[k].lease == 1 && forall j :: 0 <= j < |c.seats| && j != k ==> c.seats[j].addr != addr
    ensures Absent(Ticked(c), addr)
  {
    forall s | s in Ticked(c).seats ensures s.addr != addr {
      var j :| 0 <= j < |c.seats| && Ticked(c).seats[j] == s;
      assert s == Aged(c.seats[j]);
    }
  }

  lemma AbsentStep(c: Core, e: Event, addr: nat)
    requires Inv(c) && addr != 0 && Absent(c, addr) && NewAddr(c, e) != Some(addr)
    ensures Absent(After(c, e), addr)
  {
    forall s | s in After(c, e).seats ensures s.addr != addr {
      var j :| 0 <= j < |c.seats| && After(c, e).seats[j] == s;
      assert c.seats[j] in c.seats;
    }
  }

  lemma {:induction false} AbsentOver(c: Core, es: seq<Event>, addr: nat)
    requires Inv(c) && addr != 0 && Absent(c, addr) && addr !in Issued(c, es)
    ensures Absent(Run(c, es), addr)
    decreases |es|
  {
    if es != [] {
      AfterKeeps(c, es[0]);
      AbsentStep(c, es[0], addr);
      AbsentOver(After(c, es[0]), es[1..], addr);
    }
  }

  lemma {:induction false} LeaseStaysOut(es: seq<Event>, addr: nat, eui: Eui)
    ensures LeaseOver(0, es, addr, eui) == 0
    decreases |es|
  {
    if es != [] { LeaseStaysOut(es[1..], addr, eui); }
  }

  /** The tenant keeps its seat while its lease runs, and its address is seated nowhere once it
      has run out, until the pool issues it again. */
  lemma {:induction false} TenancyOver(c: Core, es: seq<Event>, k: nat, addr: nat, eui: Eui, left: nat)
    requires Inv(c) && left > 0 && Seats(c, k, addr, eui, left)
    ensures LeaseOver(left, es, addr, eui) > 0 ==> Seats(Run(c, es), k, addr, eui, LeaseOver(left, es, addr, eui))
    ensures LeaseOver(left, es, addr, eui) == 0 && addr !in Issued(c, es) ==> Absent(Run(c, es), addr)
    decreases |es|
  {
    if es != [] {
      var d, after := After(c, es[0]), LeaseAfter(left, es[0], addr, eui);
      SeatStep(c, es[0], k, addr, eui, left);
      AfterKeeps(c, es[0]);
      if after > 0 {
        TenancyOver(d, es[1..], k, addr, eui, after);
      } else {
        LeaseStaysOut(es[1..], addr, eui);
        if addr !in Issued(c, es) { AbsentOver(d, es[1..], addr); }
      }
    }
  }

  /** The first slot announced for an address, as a tag looks it up in a beacon. */
  function FindSlot(slots: seq<nat>, addr: nat): Option<nat> {
    FindSlotFrom(slots, addr, 0)
  }

  function FindSlotFrom(slots: seq<nat>, addr: nat, i: nat): (r: Option<nat>)
    requires i <= |slots|
    ensures r.Some? ==> i <= r.value < |slots| && slots[r.value] == addr
    ensures r.Some? ==> forall j :: i <= j < r.value ==> slots[j] != addr
    ensures r.None? ==> forall j :: i <= j < |slots| ==> slots[j] != addr
    decreases |slots| - i
  {
    if i == |slots| then None else if slots[i] == addr then Some(i) else FindSlotFrom(slots, addr, i + 1)
  }

  method LookUp(slots: array<nat>, n: nat, addr: nat) returns (r: Option<nat>)
    requires n <= slots.Length
    ensures r == FindSlot(slots[..n], addr)
  {
    for i := 0 to n
      invariant FindSlotFrom(slots[..n], addr, i) == FindSlot(slots[..n], addr)
    {
      if slots[i] == addr { return Some(i); }
    }
    return None;
  }

  lemma SeatedSlot(c: Core, k: nat, addr: nat, eui: Eui, left: nat)
    requires Inv(c) && Seats(c, k, addr, eui, left)
    ensures FindSlot(SlotMap(c), addr) == Some(k) && forall j :: 0 <= j < N_SEATS && SlotMap(c)[j] == addr ==> j == k
  {
    OnlySeat(c, k, addr, eui, left);
    assert SeatOk(c.seats[k]) && SlotMap(c)[k] == addr;
    forall j | 0 <= j < N_SEATS && j != k ensures SlotMap(c)[j] != addr { assert c.seats[j].addr != addr; }
  }

  lemma AbsentSlot(c: Core, addr: nat)
    requires Absent(c, addr) && addr != BROADCAST
    ensures FindSlot(SlotMap(c), addr) == None
  {
    forall j | 0 <= j < |c.seats| ensures SlotMap(c)[j] != addr { assert c.seats[j] in c.seats; }
  }

  /** A granted tag finds the slot it was granted, and no other, in the beacon of every moment
      while its lease runs: it runs until the 50th superframe since the grant or its last join
      or keepalive, or until it is released. After that it finds no slot, for at least the next
      5934 allocations. */
  lemma GrantedSlot(c: Core, eui: Eui, tier: nat, es: seq<Event>)
    requires Inv(c) && Joined(c, eui, tier).1.Some?
    ensures var (d, r) := Joined(c, eui, tier);
      var left := LeaseOver(LEASE, es, r.value.addr, eui);
      var found := FindSlot(SlotMap(Run(d, es)), r.value.addr);
      && (left > 0 ==> found == Some(r.value.slot))
      && (left == 0 && SeatOfEui(c.seats, eui) == N_SEATS && |Issued(d, es)| <= 5934 ==> found == None)
  {
    var (d, r) := Joined(c, eui, tier);
    var g := r.value;
    JoinKeeps(c, eui, tier);
    GrantSeats(c, eui, tier);
    TenancyOver(d, es, g.slot, g.addr, eui, LEASE);
    RunKeeps(d, es);
    var left := LeaseOver(LEASE, es, g.addr, eui);
    if left > 0 {
      SeatedSlot(Run(d, es), g.slot, g.addr, eui, left);
    } else if SeatOfEui(c.seats, eui) == N_SEATS && |Issued(d, es)| <= 5934 {
      NotReissued(c, eui, tier, es);
      AbsentSlot(Run(d, es), g.addr);
    }
  }

  lemma GrantSeats(c: Core, eui: Eui, tier: nat)
    requires Inv(c) && Joined(c, eui, tier).1.Some?
    ensures var (d, r) := Joined(c, eui, tier);
      Seats(d, r.value.slot, r.value.addr, eui, LEASE) && ADDR_BASE <= r.value.addr < ADDR_END
  {
    if SeatOfEui(c.seats, eui) == N_SEATS {
      var v := PositionOf(c.next);
      var k := AllocSucceeds(c, v);
    } else {
      assert SeatOk(c.seats[SeatOfEui(c.seats, eui)]);
    }
  }

  lemma NotReissued(c: Core, eui: Eui, tier: nat, es: seq<Event>)
    requires Inv(c) && Joined(c, eui, tier).1.Some? && SeatOfEui(c.seats, eui) == N_SEATS
    requires |Issued(Joined(c, eui, tier).0, es)| <= 5934
    ensures Joined(c, eui, tier).1.value.addr !in Issued(Joined(c, eui, tier).0, es)
  {
    var (d, r) := Joined(c, eui, tier);
    var all := [DoJoin(eui, tier)] + es;
    assert all[1..] == es;
    assert Issued(c, all) == [r.value.addr] + Issued(d, es);
    forall j | 0 <= j < |Issued(d, es)| ensures Issued(d, es)[j] != r.value.addr { NoEarlyReuse(c, all, 0, j + 1); }
  }

  lemma {:induction false} TicksOnly(left: nat, n: nat, addr: nat, eui: Eui)
    ensures LeaseOver(left, seq(n, _ => DoTick), addr, eui) == if n < left then left - n else 0
    decreases n
  {
    if n > 0 {
      assert seq(n, _ => DoTick)[1..] == seq(n - 1, _ => DoTick);
      TicksOnly(if left == 0 then 0 else left - 1, n - 1, addr, eui);
    }
  }
}
