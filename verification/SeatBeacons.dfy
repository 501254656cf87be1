/** The seat table on the air: what a tag reads in a beacon is what the table holds. */
module SeatBeacons {
  import opened Options
  import opened SeatTable
  import opened SeatRuns
  import opened SeatTenancy
  import MF = MacFrames
  import AF = AposFrames

  /** The beacon of a seat table is always readable, and reads as its slot map. */
  lemma BeaconShowsSeats(c: Core, counter: nat)
    requires Inv(c) && counter < 0x1_0000_0000
    ensures MF.ParseBeacon(MF.BeaconFrame(counter, SlotMap(c))) == Some(MF.Beacon(MF.PROTO_VER, counter, SlotMap(c)))
  {
    forall i | 0 <= i < N_SEATS ensures AF.U16(SlotMap(c)[i]) { assert SeatOk(c.seats[i]); }
    MF.BeaconRoundTrip(counter, SlotMap(c));
  }

  /** From a join to any later beacon: the granted tag reads its own slot there while its lease
      runs, and none once it has run out (for at least the next 5934 allocations). */
  lemma GrantedSlotOnAir(c: Core, eui: Eui, tier: nat, es: seq<Event>, counter: nat)
    requires Inv(c) && Joined(c, eui, tier).1.Some? && counter < 0x1_0000_0000
    ensures var (d, r) := Joined(c, eui, tier);
      var left := LeaseOver(LEASE, es, r.value.addr, eui);
      var b := MF.ParseBeacon(MF.BeaconFrame(counter, SlotMap(Run(d, es))));
      && b.Some?
      && (left > 0 ==> FindSlot(b.value.slots, r.value.addr) == Some(r.value.slot))
      && (left == 0 && SeatOfEui(c.seats, eui) == N_SEATS && |Issued(d, es)| <= 5934
          ==> FindSlot(b.value.slots, r.value.addr) == None)
  {
    var d := Joined(c, eui, tier).0;
    JoinKeeps(c, eui, tier);
    RunKeeps(d, es);
    BeaconShowsSeats(Run(d, es), counter);
    GrantedSlot(c, eui, tier, es);
  }
}
