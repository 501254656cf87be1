/** The network's own frames: beacons with their slot map, multi-polls, and the fixed frames of
    joining, keeping and leaving a seat. */
module MacFrames {
  import opened Options
  import opened Wire
  import opened AposFrames

  const GATEWAY: nat := 0x0000
  const UNASSOCIATED: nat := 0xFFFE
  const PROTO_VER: nat := 2
  const MAX_LEN: nat := 37
  const MAX_ANCHORS: nat := 4
  const EINVAL: int := -22

  const MPOL: Byte := 0xE3
  const BEACON: Byte := 0xE5

  predicate IsValid(b: seq<Byte>) {
    10 <= |b| <= MAX_LEN && b[0] == 0x41 && b[1] == 0x88 && b[3] == 0xCA && b[4] == 0xDE
  }

  lemma CommonIsValid(dest: nat, src: nat, kind: Byte, rest: seq<Byte>)
    requires U16(dest) && U16(src)
    ensures var b := Common(dest, src, kind) + rest;
      && b[9] == kind && (IsValid(b) <==> |b| <= MAX_LEN)
      && Val(b[5..7]) == dest && Val(b[7..9]) == src && b[10..] == rest
  {
    var b := Common(dest, src, kind) + rest;
    Bounds();
    ValOfLE(dest, 2);
    ValOfLE(src, 2);
    assert b[5..7] == LE(dest, 2) && b[7..9] == LE(src, 2) && b[10..] == rest;
  }

  // ---- Frames of fixed length ----

  /** Coordinates are the bit patterns of 32-bit floats. */
  datatype Fixed =
    | Join(eui: nat, tier: nat)
    | Grant(eui: nat, addr: nat, slot: nat, tier: nat, lease: nat)
    | Keepalive(tier: nat, slot: nat)
    | Release
    | Pos(x: nat, y: nat, residual: nat, nAnchors: nat, soc: nat)
    | Response(ts: nat, power: int, quality: nat)

  predicate FixedInRange(m: Fixed) {
    match m
    case Join(e, t) => U64(e) && U8(t)
    case Grant(e, a, s, t, l) => U64(e) && U16(a) && U8(s) && U8(t) && U16(l)
    case Keepalive(t, s) => U8(t) && U8(s)
    case Release => true
    case Pos(x, y, r, n, s) => U32(x) && U32(y) && U32(r) && U8(n) && U8(s)
    case Response(t, p, q) => U32(t) && I32(p) && U16(q)
  }

  datatype Kind = KJoin | KGrant | KKeepalive | KRelease | KPos | KResponse

  function KindOf(m: Fixed): Kind {
    match m
    case Join(_, _) => KJoin
    case Grant(_, _, _, _, _) => KGrant
    case Keepalive(_, _) => KKeepalive
    case Release => KRelease
    case Pos(_, _, _, _, _) => KPos
    case Response(_, _, _) => KResponse
  }

  function Tag(k: Kind): Byte {
    match k
    case KJoin => 0xE6
    case KGrant => 0xE7
    case KKeepalive => 0xE8
    case KRelease => 0xE9
    case KPos => 0xEA
    case KResponse => 0xE4
  }

  function FixedFields(m: Fixed): seq<Field>
    requires FixedInRange(m)
  {
    match m
    case Join(e, t) => [Field(8, e), Field(1, t)]
    case Grant(e, a, s, t, l) => [Field(8, e), Field(2, a), Field(1, s), Field(1, t), Field(2, l)]
    case Keepalive(t, s) => [Field(1, t), Field(1, s)]
    case Release => []
    case Pos(x, y, r, n, s) => [Field(4, x), Field(4, y), Field(4, r), Field(1, n), Field(1, s)]
    case Response(t, p, q) => [Field(4, t), Field(4, Unsigned(p)), Field(2, q)]
  }

  function FixedLayout(k: Kind): seq<nat> {
    match k
    case KJoin => [8, 1]
    case KGrant => [8, 2, 1, 1, 2]
    case KKeepalive => [1, 1]
    case KRelease => []
    case KPos => [4, 4, 4, 1, 1]
    case KResponse => [4, 4, 2]
  }

  function FixedLength(k: Kind): (n: nat)
    ensures n == 10 + Total(FixedLayout(k)) && n <= MAX_LEN
  {
    match k
    case KJoin => TotalOf2(8, 1); 19
    case KGrant => TotalOf5(8, 2, 1, 1, 2); 24
    case KKeepalive => TotalOf2(1, 1); 12
    case KRelease => 10
    case KPos => TotalOf5(4, 4, 4, 1, 1); 24
    case KResponse => TotalOf3(4, 4, 2); 20
  }

  function FixedFrom(k: Kind, vs: seq<nat>): Fixed
    requires |vs| == |FixedLayout(k)| && (k == KResponse ==> U32(vs[1]))
  {
    match k
    case KJoin => Join(vs[0], vs[1])
    case KGrant => Grant(vs[0], vs[1], vs[2], vs[3], vs[4])
    case KKeepalive => Keepalive(vs[0], vs[1])
    case KRelease => Release
    case KPos => Pos(vs[0], vs[1], vs[2], vs[3], vs[4])
    case KResponse => Response(vs[0], Signed(vs[1]), vs[2])
  }

  function FixedFrame(m: Fixed, dest: nat, src: nat): seq<Byte>
    requires FixedInRange(m)
  {
    Common(dest, src, Tag(KindOf(m))) + Encode(FixedFields(m))
  }

  /** A response may be longer than it needs to be; the others have one length. */
  predicate LengthOk(k: Kind, n: nat) { if k == KResponse then n >= FixedLength(k) else n == FixedLength(k) }

  function ParseFixed(b: seq<Byte>, k: Kind): Option<Fixed> {
    if !IsValid(b) || b[9] != Tag(k) || !LengthOk(k, |b|) then None
    else
      var p := b[10..FixedLength(k)];
      DecodedFit(FixedLayout(k), p);
      assert Bound(4) == 0x1_0000_0000;
      Some(FixedFrom(k, Decode(FixedLayout(k), p)))
  }

  lemma FixedFieldsFit(m: Fixed)
    requires FixedInRange(m)
    ensures AllFit(FixedFields(m)) && Widths(FixedFields(m)) == FixedLayout(KindOf(m))
  {
    Bounds();
  }

  lemma FixedFromOwn(m: Fixed)
    requires FixedInRange(m)
    ensures |Values(FixedFields(m))| == |FixedLayout(KindOf(m))| && (m.Response? ==> U32(Values(FixedFields(m))[1]))
    ensures FixedFrom(KindOf(m), Values(FixedFields(m))) == m
  {}

  /** Every fixed frame survives the wire, and no parser of another kind takes it. */
  lemma FixedRoundTrip(m: Fixed, dest: nat, src: nat, k: Kind)
    requires FixedInRange(m) && U16(dest) && U16(src)
    ensures ParseFixed(FixedFrame(m, dest, src), k) == if k == KindOf(m) then Some(m) else None
    ensures |FixedFrame(m, dest, src)| == FixedLength(KindOf(m))
    ensures Val(FixedFrame(m, dest, src)[5..7]) == dest && Val(FixedFrame(m, dest, src)[7..9]) == src
  {
    FixedFieldsFit(m);
    CommonIsValid(dest, src, Tag(KindOf(m)), Encode(FixedFields(m)));
    FixedReadsBack(m, dest, src);
  }

  lemma FixedReadsBack(m: Fixed, dest: nat, src: nat)
    requires FixedInRange(m) && U16(dest) && U16(src)
    ensures ParseFixed(FixedFrame(m, dest, src), KindOf(m)) == Some(m)
    ensures |FixedFrame(m, dest, src)| == FixedLength(KindOf(m))
  {
    FixedFieldsFit(m);
    DecodeOfEncode(FixedFields(m));
    FixedFromOwn(m);
    CommonIsValid(dest, src, Tag(KindOf(m)), Encode(FixedFields(m)));
    assert FixedFrame(m, dest, src)[10..FixedLength(KindOf(m))] == Encode(FixedFields(m));
  }

  /** A buffer too short is refused and left alone; otherwise it starts with the frame and is
      as before behind it. */
  ghost predicate FixedBuilt(was: seq<Byte>, now: seq<Byte>, m: Fixed, dest: nat, src: nat, rc: int)
    requires FixedInRange(m)
  {
    if |was| < FixedLength(KindOf(m)) then rc == EMSGSIZE && now == was
    else rc == FixedLength(KindOf(m)) && Wrote(was, now, 0, FixedFrame(m, dest, src))
  }

  method BuildJoin(buf: array<Byte>, eui: nat, tier: nat) returns (rc: int)
    requires FixedInRange(Join(eui, tier))
    modifies buf
    ensures FixedBuilt(old(buf[..]), buf[..], Join(eui, tier), GATEWAY, UNASSOCIATED, rc)
  {
    if buf.Length < 19 { return EMSGSIZE; }
    Bounds();
    ghost var was, h := buf[..], Common(GATEWAY, UNASSOCIATED, Tag(KindOf(Join(eui, tier))));
    WriteCommon(buf, GATEWAY, UNASSOCIATED, 0xE6);
    ghost var f0: seq<Field> := [];
    assert h + Encode(f0) == h;
    ghost var f1 := Put(buf, 10, Field(8, eui), was, h, f0);
    ghost var f2 := Put(buf, 18, Field(1, tier), was, h, f1);
    assert f2 == FixedFields(Join(eui, tier));
    return 19;
  }

  method BuildGrant(buf: array<Byte>, eui: nat, addr: nat, slot: nat, tier: nat, lease: nat) returns (rc: int)
    requires FixedInRange(Grant(eui, addr, slot, tier, lease))
    modifies buf
    ensures FixedBuilt(old(buf[..]), buf[..], Grant(eui, addr, slot, tier, lease), 0xFFFF, GATEWAY, rc)
  {
    if buf.Length < 24 { return EMSGSIZE; }
    Bounds();
    ghost var was, h := buf[..], Common(0xFFFF, GATEWAY, Tag(KindOf(Grant(eui, addr, slot, tier, lease))));
    WriteCommon(buf, 0xFFFF, GATEWAY, 0xE7);
    ghost var f0: seq<Field> := [];
    assert h + Encode(f0) == h;
    ghost var f1 := Put(buf, 10, Field(8, eui), was, h, f0);
    ghost var f2 := Put(buf, 18, Field(2, addr), was, h, f1);
    ghost var f3 := Put(buf, 20, Field(1, slot), was, h, f2);
    ghost var f4 := Put(buf, 21, Field(1, tier), was, h, f3);
    ghost var f5 := Put(buf, 22, Field(2, lease), was, h, f4);
    assert f5 == FixedFields(Grant(eui, addr, slot, tier, lease));
    return 24;
  }

  method BuildKeepalive(buf: array<Byte>, src: nat, tier: nat, slot: nat) returns (rc: int)
    requires FixedInRange(Keepalive(tier, slot)) && U16(src)
    modifies buf
    ensures FixedBuilt(old(buf[..]), buf[..], Keepalive(tier, slot), GATEWAY, src, rc)
  {
    if buf.Length < 12 { return EMSGSIZE; }
    Bounds();
    ghost var was, h := buf[..], Common(GATEWAY, src, Tag(KindOf(Keepalive(tier, slot))));
    WriteCommon(buf, GATEWAY, src, 0xE8);
    ghost var f0: seq<Field> := [];
    assert h + Encode(f0) == h;
    ghost var f1 := Put(buf, 10, Field(1, tier), was, h, f0);
    ghost var f2 := Put(buf, 11, Field(1, slot), was, h, f1);
    assert f2 == FixedFields(Keepalive(tier, slot));
    return 12;
  }

  method BuildRelease(buf: array<Byte>, src: nat) returns (rc: int)
    requires FixedInRange(Release) && U16(src)
    modifies buf
    ensures FixedBuilt(old(buf[..]), buf[..], Release, GATEWAY, src, rc)
  {
    if buf.Length < 10 { return EMSGSIZE; }
    Bounds();
    ghost var was, h := buf[..], Common(GATEWAY, src, Tag(KindOf(Release)));
    WriteCommon(buf, GATEWAY, src, 0xE9);
    ghost var f0: seq<Field> := [];
    assert h + Encode(f0) == h;
    assert f0 == FixedFields(Release);
    return 10;
  }

  method BuildPos(buf: array<Byte>, src: nat, x: nat, y: nat, residual: nat, nAnchors: nat, soc: nat) returns (rc: int)
    requires FixedInRange(Pos(x, y, residual, nAnchors, soc)) && U16(src)
    modifies buf
    ensures FixedBuilt(old(buf[..]), buf[..], Pos(x, y, residual, nAnchors, soc), GATEWAY, src, rc)
  {
    if buf.Length < 24 { return EMSGSIZE; }
    Bounds();
    ghost var was, h := buf[..], Common(GATEWAY, src, Tag(KindOf(Pos(x, y, residual, nAnchors, soc))));
    WriteCommon(buf, GATEWAY, src, 0xEA);
    ghost var f0: seq<Field> := [];
    assert h + Encode(f0) == h;
    ghost var f1 := Put(buf, 10, Field(4, x), was, h, f0);
    ghost var f2 := Put(buf, 14, Field(4, y), was, h, f1);
    ghost var f3 := Put(buf, 18, Field(4, residual), was, h, f2);
    ghost var f4 := Put(buf, 22, Field(1, nAnchors), was, h, f3);
    ghost var f5 := Put(buf, 23, Field(1, soc), was, h, f4);
    assert f5 == FixedFields(Pos(x, y, residual, nAnchors, soc));
    return 24;
  }

  method BuildResponse(buf: array<Byte>, src: nat, dest: nat, ts: nat, power: int, quality: nat) returns (rc: int)
    requires FixedInRange(Response(ts, power, quality)) && U16(src) && U16(dest)
    modifies buf
    ensures FixedBuilt(old(buf[..]), buf[..], Response(ts, power, quality), dest, src, rc)
  {
    if buf.Length < 20 { return EMSGSIZE; }
    Bounds();
    ghost var was, h := buf[..], Common(dest, src, Tag(KindOf(Response(ts, power, quality))));
    WriteCommon(buf, dest, src, 0xE4);
    ghost var f0: seq<Field> := [];
    assert h + Encode(f0) == h;
    ghost var f1 := Put(buf, 10, Field(4, ts), was, h, f0);
    ghost var f2 := Put(buf, 14, Field(4, Unsigned(power)), was, h, f1);
    ghost var f3 := Put(buf, 18, Field(2, quality), was, h, f2);
    assert f3 == FixedFields(Response(ts, power, quality));
    return 20;
  }

  // ---- Lists of 16-bit words ----

  function Words(ws: seq<nat>): (s: seq<Byte>)
    ensures |s| == 2 * |ws|
  {
    if ws == [] then [] else Words(ws[..|ws| - 1]) + LE(ws[|ws| - 1], 2)
  }

  function WordFrom(b: seq<Byte>, off: nat): nat
    requires off + 2 <= |b|
  {
    var lo: nat, hi: nat := b[off], b[off + 1];
    lo + 256 * hi
  }

  /** The n words from a position on. */
  function ReadWords(b: seq<Byte>, off: nat, n: nat): (ws: seq<nat>)
    requires off + 2 * n <= |b|
    ensures |ws| == n
  {
    seq(n, i requires 0 <= i < n => WordFrom(b, off + 2 * i))
  }

  lemma {:induction false} WordRead(ws: seq<nat>, i: nat)
    requires i < |ws| && U16(ws[i])
    ensures WordFrom(Words(ws), 2 * i) == ws[i]
  {
    var p, w := ws[..|ws| - 1], ws[|ws| - 1];
    if i < |p| {
      WordRead(p, i);
    } else {
      LE2(w);
    }
  }

  lemma MidWord(pre: seq<Byte>, mid: seq<Byte>, post: seq<Byte>, lo: nat)
    requires lo + 2 <= |mid|
    ensures WordFrom(pre + mid + post, |pre| + lo) == WordFrom(mid, lo)
  {}

  ghost predicate AllU16(ws: seq<nat>) { forall i :: 0 <= i < |ws| ==> U16(ws[i]) }

  lemma ReadOfWords(b: seq<Byte>, pre: seq<Byte>, ws: seq<nat>, post: seq<Byte>)
    requires AllU16(ws) && b == pre + Words(ws) + post
    ensures ReadWords(b, |pre|, |ws|) == ws
  {
    forall i | 0 <= i < |ws| ensures WordFrom(b, |pre| + 2 * i) == ws[i] {
      MidWord(pre, Words(ws), post, 2 * i);
      WordRead(ws, i);
    }
  }

  // ---- Beacons ----

  function BeaconHead(counter: nat): (h: seq<Byte>)
    ensures |h| == 15
  {
    Common(0xFFFF, GATEWAY, BEACON) + [PROTO_VER] + LE(counter, 4)
  }

  function BeaconFrame(counter: nat, slots: seq<nat>): (b: seq<Byte>)
    ensures |b| == 15 + 2 * |slots|
  {
    BeaconHead(counter) + Words(slots)
  }

  datatype Beacon = Beacon(version: nat, counter: nat, slots: seq<nat>)

  function ParseBeacon(b: seq<Byte>): Option<Beacon> {
    if |b| < 15 || !IsValid(b) || b[9] != BEACON || (|b| - 15) % 2 != 0 then None
    else Some(Beacon(b[10], Val(b[11..15]), ReadWords(b, 15, (|b| - 15) / 2)))
  }

  lemma BeaconHeadBytes(counter: nat, rest: seq<Byte>)
    requires U32(counter)
    ensures var b := BeaconHead(counter) + rest;
      b[9] == BEACON && b[10] == PROTO_VER && Val(b[11..15]) == counter && (IsValid(b) <==> |b| <= MAX_LEN)
  {
    var b := BeaconHead(counter) + rest;
    Bounds();
    ValOfLE(counter, 4);
    assert b == Common(0xFFFF, GATEWAY, BEACON) + ([PROTO_VER] + LE(counter, 4) + rest);
    CommonIsValid(0xFFFF, GATEWAY, BEACON, [PROTO_VER] + LE(counter, 4) + rest);
    assert b[11..15] == LE(counter, 4);
  }

  /** A beacon is read back exactly when it has at most eleven slots; a longer one is built but
      never accepted. */
  lemma BeaconRoundTrip(counter: nat, slots: seq<nat>)
    requires U32(counter) && AllU16(slots)
    ensures ParseBeacon(BeaconFrame(counter, slots)) == if |slots| <= 11 then Some(Beacon(PROTO_VER, counter, slots)) else None
  {
    BeaconHeadBytes(counter, Words(slots));
    var b := BeaconFrame(counter, slots);
    if |slots| <= 11 {
      assert b == BeaconHead(counter) + Words(slots) + [];
      ReadOfWords(b, BeaconHead(counter), slots, []);
    }
  }

  method BuildBeacon(buf: array<Byte>, counter: nat, slots: array<nat>, n: nat) returns (rc: int)
    requires n <= slots.Length && U32(counter) && forall i :: 0 <= i < n ==> U16(slots[i])
    modifies buf
    ensures buf.Length < 15 + 2 * n ==> rc == EMSGSIZE && buf[..] == old(buf[..])
    ensures buf.Length >= 15 + 2 * n ==>
      rc == 15 + 2 * n && Wrote(old(buf[..]), buf[..], 0, BeaconFrame(counter, old(slots[..n])))
  {
    ghost var was, ws := buf[..], slots[..n];
    if buf.Length < 15 + 2 * n { return EMSGSIZE; }
    WriteBeaconHead(buf, counter);
    assert BeaconHead(counter) + Words(ws[..0]) == BeaconHead(counter);
    for i := 0 to n
      invariant slots[..n] == ws
      invariant Wrote(was, buf[..], 0, BeaconHead(counter) + Words(ws[..i]))
    {
      ghost var before := buf[..];
      PutU16(buf, 15 + 2 * i, slots[i]);
      assert ws[..i + 1][..i] == ws[..i];
      WroteMore(was, before, buf[..], 0, BeaconHead(counter) + Words(ws[..i]), LE(ws[i], 2));
      assert BeaconHead(counter) + Words(ws[..i]) + LE(ws[i], 2) == BeaconHead(counter) + Words(ws[..i + 1]);
    }
    assert ws[..n] == ws;
    return 15 + 2 * n;
  }

  method WriteBeaconHead(buf: array<Byte>, counter: nat)
    requires buf.Length >= 15
    modifies buf
    ensures Wrote(old(buf[..]), buf[..], 0, BeaconHead(counter))
  {
    ghost var was := buf[..];
    var start := Common(0xFFFF, GATEWAY, BEACON);
    WriteCommon(buf, 0xFFFF, GATEWAY, BEACON);
    ghost var a := buf[..];
    PutU8(buf, 10, PROTO_VER);
    ghost var b := buf[..];
    assert LE(PROTO_VER, 1) == [PROTO_VER];
    WroteMore(was, a, b, 0, start, [PROTO_VER]);
    PutU32(buf, 11, counter);
    WroteMore(was, b, buf[..], 0, start + [PROTO_VER], LE(counter, 4));
  }

  method ReadBeaconSlots(buf: array<Byte>, len: nat, out: array<nat>) returns (n: nat)
    requires len <= buf.Length && ParseBeacon(buf[..len]).Some? && out.Length >= 11
    modifies out
    ensures n == |ParseBeacon(buf[..len]).value.slots| <= 11 && out[..n] == ParseBeacon(buf[..len]).value.slots
  {
    n := (len - 15) / 2;
    ghost var slots := ParseBeacon(buf[..len]).value.slots;
    for i := 0 to n
      invariant out[..i] == slots[..i]
    {
      out[i] := WordFrom(buf[..len], 15 + 2 * i);
    }
  }

  // ---- Multi-polls ----

  datatype AnchorSlot = AnchorSlot(addr: nat, delay: nat)

  datatype MultiPoll = MultiPoll(slots: seq<AnchorSlot>, ts: nat)

  function Flat(slots: seq<AnchorSlot>): (ws: seq<nat>)
    ensures |ws| == 2 * |slots|
  {
    if slots == [] then []
    else Flat(slots[..|slots| - 1]) + [slots[|slots| - 1].addr, slots[|slots| - 1].delay]
  }

  function Unflat(ws: seq<nat>): (slots: seq<AnchorSlot>)
    requires |ws| % 2 == 0
    ensures |slots| == |ws| / 2
  {
    seq(|ws| / 2, i requires 0 <= i < |ws| / 2 => AnchorSlot(ws[2 * i], ws[2 * i + 1]))
  }

  ghost predicate SlotsInRange(slots: seq<AnchorSlot>) {
    forall i :: 0 <= i < |slots| ==> U16(slots[i].addr) && U16(slots[i].delay)
  }

  function MultiPollHead(src: nat, n: Byte): (h: seq<Byte>)
    ensures |h| == 11
  {
    Common(0xFFFF, src, MPOL) + [n]
  }

  function MultiPollFrame(src: nat, slots: seq<AnchorSlot>, ts: nat): (b: seq<Byte>)
    requires |slots| <= MAX_ANCHORS
    ensures |b| == 15 + 4 * |slots|
  {
    MultiPollHead(src, |slots|) + Words(Flat(slots)) + LE(ts, 4)
  }

  function ParseMultiPoll(b: seq<Byte>): Option<MultiPoll> {
    if !IsValid(b) || b[9] != MPOL || |b| < 12 then None
    else
      var n: nat := b[10];
      if n == 0 || n > MAX_ANCHORS || |b| < 15 + 4 * n then None
      else Some(MultiPoll(Unflat(ReadWords(b, 11, 2 * n)), Val(b[11 + 4 * n..15 + 4 * n])))
  }

  lemma {:induction false} FlatWords(slots: seq<AnchorSlot>)
    requires SlotsInRange(slots)
    ensures Unflat(Flat(slots)) == slots && AllU16(Flat(slots))
  {
    if slots != [] {
      var p, s := slots[..|slots| - 1], slots[|slots| - 1];
      FlatWords(p);
      assert Unflat(Flat(slots)) == Unflat(Flat(p)) + [s];
    }
  }

  lemma MultiPollBytes(src: nat, n: Byte, words: seq<Byte>, ts: nat)
    requires U16(src) && U32(ts) && 1 <= n <= MAX_ANCHORS && |words| == 4 * n
    ensures var b := MultiPollHead(src, n) + words + LE(ts, 4);
      && IsValid(b) && b[9] == MPOL && b[10] == n && |b| == 15 + 4 * n
      && Val(b[7..9]) == src && Val(b[11 + 4 * n..15 + 4 * n]) == ts
  {
    var b := MultiPollHead(src, n) + words + LE(ts, 4);
    CommonIsValid(0xFFFF, src, MPOL, [n] + words + LE(ts, 4));
    assert b == Common(0xFFFF, src, MPOL) + ([n] + words + LE(ts, 4));
    assert b[11 + 4 * n..15 + 4 * n] == LE(ts, 4);
    Bounds();
    ValOfLE(ts, 4);
  }

  /** A multi-poll of one to four anchors is read back as it was built. */
  lemma MultiPollRoundTrip(src: nat, slots: seq<AnchorSlot>, ts: nat)
    requires U16(src) && U32(ts) && 1 <= |slots| <= MAX_ANCHORS && SlotsInRange(slots)
    ensures ParseMultiPoll(MultiPollFrame(src, slots, ts)) == Some(MultiPoll(slots, ts))
    ensures Val(MultiPollFrame(src, slots, ts)[7..9]) == src
  {
    FlatWords(slots);
    MultiPollBytes(src, |slots|, Words(Flat(slots)), ts);
    ReadOfWords(MultiPollFrame(src, slots, ts), MultiPollHead(src, |slots|), Flat(slots), LE(ts, 4));
  }

  method BuildMultiPoll(buf: array<Byte>, src: nat, slots: array<AnchorSlot>, n: nat, ts: nat) returns (rc: int)
    requires n <= slots.Length && U16(src) && U32(ts) && SlotsInRange(slots[..n])
    modifies buf
    ensures n == 0 || n > MAX_ANCHORS ==> rc == EINVAL && buf[..] == old(buf[..])
    ensures 1 <= n <= MAX_ANCHORS && buf.Length < 15 + 4 * n ==> rc == EMSGSIZE && buf[..] == old(buf[..])
    ensures 1 <= n <= MAX_ANCHORS && buf.Length >= 15 + 4 * n ==>
      rc == 15 + 4 * n && Wrote(old(buf[..]), buf[..], 0, MultiPollFrame(src, slots[..n], ts))
  {
    if n == 0 || n > MAX_ANCHORS { return EINVAL; }
    if buf.Length < 15 + 4 * n { return EMSGSIZE; }
    ghost var was, h := buf[..], MultiPollHead(src, n);
    WriteMultiPollHead(buf, src, n);
    PutSlots(buf, slots, n, was, h);
    ghost var before := buf[..];
    PutU32(buf, 11 + 4 * n, ts);
    WroteMore(was, before, buf[..], 0, h + Words(Flat(slots[..n])), LE(ts, 4));
    return 15 + 4 * n;
  }

  method PutSlots(buf: array<Byte>, slots: array<AnchorSlot>, n: nat, ghost was: seq<Byte>, ghost h: seq<Byte>)
    requires n <= slots.Length && |h| == 11 && buf.Length >= 15 + 4 * n && |was| == buf.Length && Wrote(was, buf[..], 0, h)
    modifies buf
    ensures Wrote(was, buf[..], 0, h + Words(Flat(slots[..n])))
  {
    assert h + Words(Flat(slots[..0])) == h;
    for i := 0 to n
      invariant Wrote(was, buf[..], 0, h + Words(Flat(slots[..i])))
    {
      ghost var before := buf[..];
      PutSlot(buf, 11 + 4 * i, slots[i]);
      FlatNext(slots[..n], i, h);
      assert slots[..n][..i] == slots[..i] && slots[..n][..i + 1] == slots[..i + 1];
      WroteMore(was, before, buf[..], 0, h + Words(Flat(slots[..i])), LE(slots[i].addr, 2) + LE(slots[i].delay, 2));
    }
  }

  lemma FlatNext(slots: seq<AnchorSlot>, i: nat, h: seq<Byte>)
    requires i < |slots|
    ensures h + Words(Flat(slots[..i + 1])) == (h + Words(Flat(slots[..i]))) + (LE(slots[i].addr, 2) + LE(slots[i].delay, 2))
  {
    assert slots[..i + 1][..i] == slots[..i];
    var ws := Flat(slots[..i]);
    var a := ws + [slots[i].addr];
    assert Flat(slots[..i + 1]) == a + [slots[i].delay];
    assert (a + [slots[i].delay])[..|a|] == a && a[..|ws|] == ws;
  }

  method PutSlot(buf: array<Byte>, off: nat, slot: AnchorSlot)
    requires off + 4 <= buf.Length
    modifies buf
    ensures Wrote(old(buf[..]), buf[..], off, LE(slot.addr, 2) + LE(slot.delay, 2))
  {
    ghost var was := buf[..];
    PutU16(buf, off, slot.addr);
    ghost var before := buf[..];
    PutU16(buf, off + 2, slot.delay);
    WroteMore(was, before, buf[..], off, LE(slot.addr, 2), LE(slot.delay, 2));
  }

  method WriteMultiPollHead(buf: array<Byte>, src: nat, n: Byte)
    requires buf.Length >= 11
    modifies buf
    ensures Wrote(old(buf[..]), buf[..], 0, MultiPollHead(src, n))
  {
    ghost var was := buf[..];
    WriteCommon(buf, 0xFFFF, src, MPOL);
    ghost var a := buf[..];
    PutU8(buf, 10, n);
    assert LE(n, 1) == [n];
    WroteMore(was, a, buf[..], 0, Common(0xFFFF, src, MPOL), [n]);
  }
}
