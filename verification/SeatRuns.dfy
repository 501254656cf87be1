/** What holds over every run of joins, keepalives, releases and superframes. */
module SeatRuns {
  import opened Options
  import opened SeatTable
  import opened Pigeonhole

  ghost predicate SeatOk(s: Seat) {
    if s.addr == 0 then s == FREE_SEAT else ADDR_BASE <= s.addr < ADDR_END && 1 <= s.lease <= LEASE
  }

  ghost predicate Apart(s: Seat, t: Seat) { s.addr != 0 && t.addr != 0 ==> s.addr != t.addr && s.eui != t.eui }

  /** Live addresses and identifiers are pairwise distinct, addresses are pool addresses, and a
      seat is live exactly while its lease runs. */
  ghost predicate Inv(c: Core) {
    && |c.seats| == N_SEATS && ADDR_BASE <= c.next < ADDR_END
    && (forall s :: s in c.seats ==> SeatOk(s))
    && forall i, j :: 0 <= i < j < |c.seats| ==> Apart(c.seats[i], c.seats[j])
  }

  // ---- The pool as an unbounded line of positions ----

  function AddrAt(v: nat): (a: nat)
    ensures ADDR_BASE <= a < ADDR_END
  {
    ADDR_BASE + v % POOL
  }

  lemma AdvanceIsNext(v: nat)
    ensures Advance(AddrAt(v)) == AddrAt(v + 1)
  {}

  /** Positions closer than the size of the pool hold different addresses. */
  lemma NearbyDiffer(v: nat, w: nat)
    requires v < w < v + POOL
    ensures AddrAt(v) != AddrAt(w)
  {}

  /** The seat that holds the address at the j-th position from v, or |seats|. */
  function Holder(seats: seq<Seat>, v: nat, j: nat): (k: nat)
    ensures k <= |seats|
  {
    SeatOfAddr(seats, AddrAt(v + j))
  }

  /** An allocation takes the first address on the line that no seat holds, if its tries last. */
  lemma {:induction false} AllocAt(seats: seq<Seat>, v: nat, tries: nat) returns (k: nat)
    ensures k <= tries
    ensures forall j: nat :: j < k ==> Holder(seats, v, j) < |seats|
    ensures k < tries ==> Holder(seats, v, k) == |seats|
    ensures k < tries ==> AllocFrom(seats, AddrAt(v), tries) == (AddrAt(v + k), AddrAt(v + k + 1))
    decreases tries
  {
    AdvanceIsNext(v);
    if tries == 0 || SeatOfAddr(seats, AddrAt(v)) == |seats| {
      k := 0;
    } else {
      k := AllocAt(seats, v + 1, tries - 1);
      forall j: nat | j < k + 1 ensures Holder(seats, v, j) < |seats| {
        if j > 0 { assert Holder(seats, v, j) == Holder(seats, v + 1, j - 1); }
      }
      assert Holder(seats, v, k + 1) == Holder(seats, v + 1, k);
      k := k + 1;
    }
  }

  /** With a seat free, at most ten tries are wasted: so the loop's fallback is never reached. */
  lemma AllocSucceeds(c: Core, v: nat) returns (k: nat)
    requires Inv(c) && c.next == AddrAt(v) && FreeSeat(c.seats) < N_SEATS
    ensures k <= 10 && Alloc(c) == (AddrAt(v + k), AddrAt(v + k + 1))
    ensures SeatOfAddr(c.seats, AddrAt(v + k)) == N_SEATS
  {
    k := AllocAt(c.seats, v, N_SEATS + 1);
    var f := FreeSeat(c.seats);
    var held: seq<nat> := seq(k, j requires 0 <= j < k => Holder(c.seats, v, j));
    forall i | 0 <= i < k ensures held[i] < N_SEATS && held[i] != f && c.seats[held[i]].addr == AddrAt(v + i) {
      assert Holder(c.seats, v, i) < N_SEATS;
    }
    forall i, j | 0 <= i < j < k ensures held[i] != held[j] { NearbyDiffer(v + i, v + j); }
    TooManyHeld(held, f);
    assert Holder(c.seats, v, k) == N_SEATS;
  }

  lemma TooManyHeld(held: seq<nat>, f: nat)
    requires f < N_SEATS && forall i :: 0 <= i < |held| ==> held[i] < N_SEATS && held[i] != f
    requires forall i, j :: 0 <= i < j < |held| ==> held[i] != held[j]
    ensures |held| <= 10
  {
    DistinctBelow(held + [f], N_SEATS);
  }

  lemma PositionOf(next: nat) returns (v: nat)
    requires ADDR_BASE <= next < ADDR_END
    ensures next == AddrAt(v)
  {
    v := next - ADDR_BASE;
  }

  // ---- Every operation keeps the invariant ----

  datatype Event = DoJoin(eui: Eui, tier: nat) | DoKeepalive(addr: nat, tier: nat) | DoRelease(addr: nat) | DoTick

  function After(c: Core, e: Event): Core {
    match e
    case DoJoin(eui, tier) => Joined(c, eui, tier).0
    case DoKeepalive(addr, tier) => Refreshed(c, addr, tier)
    case DoRelease(addr) => Released(c, addr)
    case DoTick => Ticked(c)
  }

  /** The address a join takes from the pool, if it takes one. */
  function NewAddr(c: Core, e: Event): Option<nat> {
    if e.DoJoin? && SeatOfEui(c.seats, e.eui) == |c.seats| && FreeSeat(c.seats) < |c.seats| then Some(Alloc(c).0) else None
  }

  lemma SeatUpdate(c: Core, k: nat, s: Seat, next: nat)
    requires Inv(c) && k < N_SEATS && SeatOk(s) && ADDR_BASE <= next < ADDR_END
    requires forall j :: 0 <= j < N_SEATS && j != k ==> Apart(c.seats[j], s)
    ensures Inv(c.(seats := c.seats[k := s], next := next))
  {}

  lemma JoinKeeps(c: Core, eui: Eui, tier: nat)
    requires Inv(c)
    ensures Inv(Joined(c, eui, tier).0)
  {
    var k, f := SeatOfEui(c.seats, eui), FreeSeat(c.seats);
    if k < N_SEATS {
      forall j | 0 <= j < N_SEATS && j != k ensures Apart(c.seats[j], Seat(c.seats[k].addr, eui, tier, LEASE)) {
        if j < k { assert Apart(c.seats[j], c.seats[k]); } else { assert Apart(c.seats[k], c.seats[j]); }
      }
      assert SeatOk(c.seats[k]);
      SeatUpdate(c, k, Seat(c.seats[k].addr, eui, tier, LEASE), c.next);
    } else if f < N_SEATS {
      var v := PositionOf(c.next);
      var n := AllocSucceeds(c, v);
      SeatUpdate(c, f, Seat(AddrAt(v + n), eui, tier, LEASE), AddrAt(v + n + 1));
    }
  }

  lemma OthersKeep(c: Core, addr: nat, tier: nat)
    requires Inv(c)
    ensures Inv(Refreshed(c, addr, tier)) && Inv(Released(c, addr))
  {
    var k := SeatOfAddr(c.seats, addr);
    if k < N_SEATS {
      forall j | 0 <= j < N_SEATS && j != k ensures Apart(c.seats[j], c.seats[k]) {
        if j < k { assert Apart(c.seats[j], c.seats[k]); } else { assert Apart(c.seats[k], c.seats[j]); }
      }
      assert SeatOk(c.seats[k]);
      SeatUpdate(c, k, c.seats[k].(tier := tier, lease := LEASE), c.next);
      SeatUpdate(c, k, FREE_SEAT, c.next);
    }
  }

  lemma TickKeeps(c: Core)
    requires Inv(c)
    ensures Inv(Ticked(c))
  {
    var t := Ticked(c).seats;
    forall i | 0 <= i < N_SEATS ensures SeatOk(t[i]) { assert SeatOk(c.seats[i]); }
    forall i, j | 0 <= i < j < N_SEATS ensures Apart(t[i], t[j]) { assert Apart(c.seats[i], c.seats[j]); }
  }

  lemma AfterKeeps(c: Core, e: Event)
    requires Inv(c)
    ensures Inv(After(c, e))
  {
    match e {
      case DoJoin(eui, tier) => JoinKeeps(c, eui, tier);
      case DoKeepalive(addr, tier) => OthersKeep(c, addr, tier);
      case DoRelease(addr) => OthersKeep(c, addr, 0);
      case DoTick => TickKeeps(c);
    }
  }

  function Run(c: Core, es: seq<Event>): Core
    decreases |es|
  {
    if es == [] then c else Run(After(c, es[0]), es[1..])
  }

  lemma {:induction false} RunKeeps(c: Core, es: seq<Event>)
    requires Inv(c)
    ensures Inv(Run(c, es))
    decreases |es|
  {
    if es != [] {
      AfterKeeps(c, es[0]);
      RunKeeps(After(c, es[0]), es[1..]);
    }
  }

  lemma InitialKeeps()
    ensures Inv(Initial())
  {}

  /** So it holds from power-up on. */
  lemma RunsFromPowerUp(es: seq<Event>)
    ensures Inv(Run(Initial(), es))
  {
    InitialKeeps();
    RunKeeps(Initial(), es);
  }
}
