/** The gateway's seats: eleven ranging slots, leases aged by superframes, and a wrapping pool
    of short addresses. */
module SeatTable {
  import opened Addresses
  import opened Options

  const N_SEATS: nat := 11
  const LEASE: nat := 50
  const ADDR_BASE: nat := 0x0100
  const ADDR_END: nat := 0xFFFE
  const POOL: nat := 65278

  type Eui = nat

  /** addr is 0 for a free seat. */
  datatype Seat = Seat(addr: nat, eui: Eui, tier: nat, lease: nat)

  const FREE_SEAT: Seat := Seat(0, 0, 0, 0)

  datatype Core = Core(seats: seq<Seat>, frames: nat, next: nat)

  datatype Grant = Grant(addr: nat, slot: nat, tier: nat, lease: nat)

  function Initial(): Core { Core(seq(N_SEATS, _ => FREE_SEAT), 0, ADDR_BASE) }

  // ---- Lookups ----

  /** Index of the first seat with this non-zero address, or |seats|. */
  function SeatOfAddr(seats: seq<Seat>, addr: nat): (k: nat)
    ensures k <= |seats|
    ensures k < |seats| ==> seats[k].addr == addr != 0
    ensures forall j :: 0 <= j < k ==> addr == 0 || seats[j].addr != addr
  {
    if seats == [] || addr == 0 then |seats|
    else if seats[0].addr == addr then 0
    else 1 + SeatOfAddr(seats[1..], addr)
  }

  /** Index of the first live seat with this identifier, or |seats|. */
  function SeatOfEui(seats: seq<Seat>, eui: Eui): (k: nat)
    ensures k <= |seats|
    ensures k < |seats| ==> seats[k].addr != 0 && seats[k].eui == eui
    ensures forall j :: 0 <= j < k ==> seats[j].addr == 0 || seats[j].eui != eui
  {
    if seats == [] then 0 else if seats[0].addr != 0 && seats[0].eui == eui then 0 else 1 + SeatOfEui(seats[1..], eui)
  }

  function FreeSeat(seats: seq<Seat>): (k: nat)
    ensures k <= |seats|
    ensures k < |seats| ==> seats[k].addr == 0
    ensures forall j :: 0 <= j < k ==> seats[j].addr != 0
  {
    if seats == [] then 0 else if seats[0].addr == 0 then 0 else 1 + FreeSeat(seats[1..])
  }

  // ---- Operations ----

  /** The pool cursor after an address was taken, in 16 bits. */
  function Advance(next: nat): nat {
    var n := (next + 1) % 0x1_0000;
    if n >= ADDR_END then ADDR_BASE else n
  }

  /** (the address, the cursor afterwards), with the tries left. */
  function AllocFrom(seats: seq<Seat>, next: nat, tries: nat): (nat, nat)
    decreases tries
  {
    if tries == 0 then (ADDR_BASE, next)
    else if SeatOfAddr(seats, next) == |seats| then (next, Advance(next))
    else AllocFrom(seats, Advance(next), tries - 1)
  }

  function Alloc(c: Core): (nat, nat) { AllocFrom(c.seats, c.next, N_SEATS + 1) }

  function Seated(c: Core, k: nat, addr: nat, next: nat, eui: Eui, tier: nat): (Core, Option<Grant>)
    requires k < |c.seats|
  {
    (c.(seats := c.seats[k := Seat(addr, eui, tier, LEASE)], next := next), Some(Grant(addr, k, tier, LEASE)))
  }

  function Joined(c: Core, eui: Eui, tier: nat): (Core, Option<Grant>) {
    var k := SeatOfEui(c.seats, eui);
    if k < |c.seats| then Seated(c, k, c.seats[k].addr, c.next, eui, tier)
    else
      var f := FreeSeat(c.seats);
      if f == |c.seats| then (c, None)
      else var (addr, next) := Alloc(c); Seated(c, f, addr, next, eui, tier)
  }

  function Refreshed(c: Core, addr: nat, tier: nat): Core {
    var k := SeatOfAddr(c.seats, addr);
    if k == |c.seats| then c else c.(seats := c.seats[k := c.seats[k].(tier := tier, lease := LEASE)])
  }

  function Released(c: Core, addr: nat): Core {
    var k := SeatOfAddr(c.seats, addr);
    if k == |c.seats| then c else c.(seats := c.seats[k := FREE_SEAT])
  }

  function Aged(s: Seat): Seat {
    if s.addr == 0 then s
    else
      var lease := if s.lease > 0 then s.lease - 1 else 0;
      if lease == 0 then FREE_SEAT else s.(lease := lease)
  }

  function Ticked(c: Core): Core {
    c.(seats := seq(|c.seats|, i requires 0 <= i < |c.seats| => Aged(c.seats[i])), frames := (c.frames + 1) % 0x1_0000_0000)
  }

  /** What the beacon announces: the address seated in each slot, or the broadcast address. */
  function SlotMap(c: Core): (m: seq<nat>)
    ensures |m| == |c.seats|
  {
    seq(|c.seats|, i requires 0 <= i < |c.seats| => if c.seats[i].addr != 0 then c.seats[i].addr else BROADCAST)
  }

  // ---- The table as the gateway updates it ----

  class Table {
    const seats: array<Seat>
    var frames: nat
    var next: nat

    ghost function Value(): Core
      reads this, seats
    {
      Core(seats[..], frames, next)
    }

    constructor ()
      ensures Value() == Initial() && seats.Length == N_SEATS && fresh(seats)
    {
      seats := new Seat[N_SEATS](_ => FREE_SEAT);
      frames, next := 0, ADDR_BASE;
      new;
      assert seats[..] == Initial().seats;
    }

    method IndexOfAddr(addr: nat) returns (k: nat)
      ensures k == SeatOfAddr(seats[..], addr)
    {
      if addr == 0 { return seats.Length; }
      k := 0;
      while k < seats.Length
        invariant k <= seats.Length && forall j :: 0 <= j < k ==> seats[j].addr != addr
      {
        if seats[k].addr == addr { return; }
        k := k + 1;
      }
    }

    method IndexOfEui(eui: Eui) returns (k: nat)
      ensures k == SeatOfEui(seats[..], eui)
    {
      k := 0;
      while k < seats.Length
        invariant k <= seats.Length && forall j :: 0 <= j < k ==> seats[j].addr == 0 || seats[j].eui != eui
      {
        if seats[k].addr != 0 && seats[k].eui == eui { return; }
        k := k + 1;
      }
    }

    method IndexOfFree() returns (k: nat)
      ensures k == FreeSeat(seats[..])
    {
      k := 0;
      while k < seats.Length
        invariant k <= seats.Length && forall j :: 0 <= j < k ==> seats[j].addr != 0
      {
        if seats[k].addr == 0 { return; }
        k := k + 1;
      }
    }

    method TakeAddr() returns (addr: nat)
      modifies this`next
      ensures (addr, next) == AllocFrom(seats[..], old(next), N_SEATS + 1)
    {
      for tries := 0 to N_SEATS + 1
        invariant AllocFrom(seats[..], next, N_SEATS + 1 - tries) == AllocFrom(seats[..], old(next), N_SEATS + 1)
      {
        var a := next;
        next := Advance(next);
        var k := IndexOfAddr(a);
        if k == seats.Length { return a; }
      }
      return ADDR_BASE;
    }

    method Join(eui: Eui, tier: nat) returns (g: Option<Grant>)
      modifies this`next, seats
      ensures (Value(), g) == Joined(old(Value()), eui, tier)
    {
      var k := IndexOfEui(eui);
      if k == seats.Length {
        k := IndexOfFree();
        if k == seats.Length { return None; }
        var addr := TakeAddr();
        seats[k] := Seat(addr, eui, 0, 0);
      }
      seats[k] := seats[k].(tier := tier, lease := LEASE);
      g := Some(Grant(seats[k].addr, k, tier, LEASE));
      assert seats[..] == old(seats[..])[k := Seat(seats[k].addr, eui, tier, LEASE)];
    }

    method Keepalive(addr: nat, tier: nat)
      modifies seats
      ensures Value() == Refreshed(old(Value()), addr, tier)
    {
      var k := IndexOfAddr(addr);
      if k == seats.Length { return; }
      seats[k] := seats[k].(tier := tier, lease := LEASE);
    }

    method Release(addr: nat)
      modifies seats
      ensures Value() == Released(old(Value()), addr)
    {
      var k := IndexOfAddr(addr);
      if k == seats.Length { return; }
      seats[k] := FREE_SEAT;
    }

    method Tick()
      modifies this`frames, seats
      ensures Value() == Ticked(old(Value()))
    {
      ghost var was := seats[..];
      frames := (frames + 1) % 0x1_0000_0000;
      for i := 0 to seats.Length
        invariant frames == (old(frames) + 1) % 0x1_0000_0000
        invariant forall j :: 0 <= j < i ==> seats[j] == Aged(was[j])
        invariant forall j :: i <= j < seats.Length ==> seats[j] == was[j]
      {
        if seats[i].addr == 0 { continue; }
        if seats[i].lease > 0 { seats[i] := seats[i].(lease := seats[i].lease - 1); }
        if seats[i].lease == 0 { seats[i] := FREE_SEAT; }
      }
      assert seats[..] == Ticked(old(Value())).seats by {
        forall j | 0 <= j < |was| ensures seats[..][j] == Ticked(old(Value())).seats[j] {}
      }
    }

    method BuildSlotMap(slots: array<nat>)
      requires slots.Length == seats.Length
      modifies slots
      ensures slots[..] == SlotMap(Value())
    {
      for i := 0 to seats.Length
        invariant forall j :: 0 <= j < i ==> slots[j] == if seats[j].addr != 0 then seats[j].addr else BROADCAST
      {
        slots[i] := if seats[i].addr != 0 then seats[i].addr else BROADCAST;
      }
      assert slots[..] == SlotMap(Value());
    }
  }
}
