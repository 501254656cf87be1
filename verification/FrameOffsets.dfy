/** Where each field of each frame lies on the wire. */
module FrameOffsets {
  import opened Wire
  import A = AposFrames
  import M = MacFrames

  /** Where the i-th field starts. */
  function Offset(fs: seq<Field>, i: nat): nat
    requires i <= |fs|
  {
    if i == 0 then 0 else Offset(fs, i - 1) + fs[i - 1].width
  }

  lemma {:induction false} OffsetRest(fs: seq<Field>, i: nat)
    requires 0 < i <= |fs|
    ensures Offset(fs, i) == fs[0].width + Offset(fs[1..], i - 1)
  {
    if i > 1 { OffsetRest(fs, i - 1); }
  }

  lemma {:induction false} EncodedAt(fs: seq<Field>, i: nat)
    requires i < |fs| && Fits(fs[i])
    ensures var off := Offset(fs, i);
      off + fs[i].width <= |Encode(fs)| && Val(Encode(fs)[off..off + fs[i].width]) == fs[i].value
    decreases |fs|
  {
    var first, rest := LE(fs[0].value, fs[0].width), Encode(fs[1..]);
    if i == 0 {
      ValOfLE(fs[0].value, fs[0].width);
      assert (first + rest)[..|first|] == first;
    } else {
      OffsetRest(fs, i);
      EncodedAt(fs[1..], i - 1);
      var off := Offset(fs[1..], i - 1);
      assert (first + rest)[|first| + off..|first| + off + fs[i].width] == rest[off..off + fs[i].width];
    }
  }

  /** The i-th field after a header. */
  lemma FieldAt(h: seq<Byte>, fs: seq<Field>, i: nat, at: nat, width: nat)
    requires AllFit(fs) && i < |fs| && at == |h| + Offset(fs, i) && width == fs[i].width
    ensures var b := h + Encode(fs);
      at + width <= |b| && Val(b[at..at + width]) == fs[i].value && at + width == |h| + Offset(fs, i + 1)
  {
    assert fs[i] in fs;
    EncodedAt(fs, i);
    assert (h + Encode(fs))[at..at + width] == Encode(fs)[at - |h|..at - |h| + width];
  }

  function Byte1(b: seq<Byte>, at: nat): nat
    requires at < |b|
  {
    b[at]
  }

  lemma OneByte(b: seq<Byte>, at: nat)
    requires at < |b|
    ensures Val(b[at..at + 1]) == Byte1(b, at)
  {
    assert b[at..at + 1] == [b[at]] && [b[at]][1..] == [];
  }

  /** Frame control, network, destination, source and type, in every frame of both families. */
  lemma HeaderAt(dest: nat, src: nat, kind: Byte)
    requires A.U16(dest) && A.U16(src)
    ensures var h := Common(dest, src, kind);
      && |h| == 10 && h[0] == 0x41 && h[1] == 0x88 && h[3] == 0xCA && h[4] == 0xDE
      && Val(h[5..7]) == dest && Val(h[7..9]) == src && h[9] == kind
  {
    M.CommonIsValid(dest, src, kind, []);
    assert Common(dest, src, kind) + [] == Common(dest, src, kind);
  }

  // ---- Survey frames: 0xEB at 9, the subtype at 10, the payload from 11 on ----

  lemma SurveyHeaderAt(m: A.Apos, src: nat, dest: nat)
    requires A.InRange(m) && A.U16(src) && A.U16(dest)
    ensures var b := A.Frame(m, src, dest);
      && |b| >= 11 && b[9] == 0xEB
      && b[10] == match m {
           case SurveyBegin(_, _) => 1 case EnumRsp(_, _, _, _, _, _) => 2 case RangeCmd(_, _, _) => 3 case RangeRsp(_, _, _, _, _) => 4
           case SetPos(_, _, _, _) => 5 case SetPosAck(_, _, _, _, _) => 6 case SurveyEnd(_) => 7
         }
      && Val(b[7..9]) == src && Val(b[5..7]) == (if m.SurveyBegin? || m.SurveyEnd? then 0xFFFF else dest)
  {
    A.RoundTrip(m, src, dest, 1);
  }

  lemma SurveyBeginAt(session: nat, window: nat, src: nat, dest: nat)
    requires A.InRange(A.SurveyBegin(session, window))
    ensures var b := A.Frame(A.SurveyBegin(session, window), src, dest);
      |b| == 15 && Val(b[11..13]) == session && Val(b[13..15]) == window
  {
    var m := A.SurveyBegin(session, window);
    A.FieldsFit(m);
    var h, fs := A.Header(A.DestOf(m, dest), src, A.Sub(m)), A.Fields(m);
    FieldAt(h, fs, 0, 11, 2);
    FieldAt(h, fs, 1, 13, 2);
    FrameLength(h, fs, 15);
  }

  lemma FrameLength(h: seq<Byte>, fs: seq<Field>, n: nat)
    requires n == |h| + Offset(fs, |fs|)
    ensures |h + Encode(fs)| == n
  {
    EncodedLength(fs);
  }

  lemma {:induction false} EncodedLength(fs: seq<Field>)
    ensures |Encode(fs)| == Offset(fs, |fs|)
  {
    if fs != [] {
      EncodedLength(fs[1..]);
      OffsetRest(fs, |fs|);
    }
  }

  lemma EnumRspAt(session: nat, eui: nat, valid: bool, x: nat, y: nat, z: nat, src: nat, dest: nat)
    requires A.InRange(A.EnumRsp(session, eui, valid, x, y, z))
    ensures var b := A.Frame(A.EnumRsp(session, eui, valid, x, y, z), src, dest);
      && |b| == 34 && Val(b[11..13]) == session && Val(b[13..21]) == eui && Byte1(b, 21) == (if valid then 1 else 0)
      && Val(b[22..26]) == x && Val(b[26..30]) == y && Val(b[30..34]) == z
  {
    var m := A.EnumRsp(session, eui, valid, x, y, z);
    A.FieldsFit(m);
    var h, fs := A.Header(A.DestOf(m, dest), src, A.Sub(m)), A.Fields(m);
    FieldAt(h, fs, 0, 11, 2);
    FieldAt(h, fs, 1, 13, 8);
    FieldAt(h, fs, 2, 21, 1);
    FieldAt(h, fs, 3, 22, 4);
    FieldAt(h, fs, 4, 26, 4);
    FieldAt(h, fs, 5, 30, 4);
    FrameLength(h, fs, 34);
    OneByte(h + Encode(fs), 21);
  }

  lemma RangeCmdAt(session: nat, peer: nat, n: nat, src: nat, dest: nat)
    requires A.InRange(A.RangeCmd(session, peer, n))
    ensures var b := A.Frame(A.RangeCmd(session, peer, n), src, dest);
      |b| == 16 && Val(b[11..13]) == session && Val(b[13..15]) == peer && Byte1(b, 15) == n
  {
    var m := A.RangeCmd(session, peer, n);
    A.FieldsFit(m);
    var h, fs := A.Header(A.DestOf(m, dest), src, A.Sub(m)), A.Fields(m);
    FieldAt(h, fs, 0, 11, 2);
    FieldAt(h, fs, 1, 13, 2);
    FieldAt(h, fs, 2, 15, 1);
    FrameLength(h, fs, 16);
    OneByte(h + Encode(fs), 15);
  }

  /** The mean is in two's complement. */
  lemma RangeRspAt(session: nat, peer: nat, mean: int, sd: nat, n: nat, src: nat, dest: nat)
    requires A.InRange(A.RangeRsp(session, peer, mean, sd, n))
    ensures var b := A.Frame(A.RangeRsp(session, peer, mean, sd, n), src, dest);
      && |b| == 22 && Val(b[11..13]) == session && Val(b[13..15]) == peer
      && Val(b[15..19]) == (if mean < 0 then mean + 0x1_0000_0000 else mean)
      && Val(b[19..21]) == sd && Byte1(b, 21) == n
  {
    var m := A.RangeRsp(session, peer, mean, sd, n);
    A.FieldsFit(m);
    var h, fs := A.Header(A.DestOf(m, dest), src, A.Sub(m)), A.Fields(m);
    FieldAt(h, fs, 0, 11, 2);
    FieldAt(h, fs, 1, 13, 2);
    FieldAt(h, fs, 2, 15, 4);
    FieldAt(h, fs, 3, 19, 2);
    FieldAt(h, fs, 4, 21, 1);
    FrameLength(h, fs, 22);
    OneByte(h + Encode(fs), 21);
  }

  lemma SetPosAt(session: nat, x: nat, y: nat, z: nat, src: nat, dest: nat)
    requires A.InRange(A.SetPos(session, x, y, z))
    ensures var b := A.Frame(A.SetPos(session, x, y, z), src, dest);
      |b| == 25 && Val(b[11..13]) == session && Val(b[13..17]) == x && Val(b[17..21]) == y && Val(b[21..25]) == z
  {
    var m := A.SetPos(session, x, y, z);
    A.FieldsFit(m);
    var h, fs := A.Header(A.DestOf(m, dest), src, A.Sub(m)), A.Fields(m);
    FieldAt(h, fs, 0, 11, 2);
    FieldAt(h, fs, 1, 13, 4);
    FieldAt(h, fs, 2, 17, 4);
    FieldAt(h, fs, 3, 21, 4);
    FrameLength(h, fs, 25);
  }

  lemma SetPosAckAt(session: nat, x: nat, y: nat, z: nat, ok: bool, src: nat, dest: nat)
    requires A.InRange(A.SetPosAck(session, x, y, z, ok))
    ensures var b := A.Frame(A.SetPosAck(session, x, y, z, ok), src, dest);
      && |b| == 26 && Val(b[11..13]) == session && Val(b[13..17]) == x && Val(b[17..21]) == y && Val(b[21..25]) == z
      && Byte1(b, 25) == (if ok then 1 else 0)
  {
    var m := A.SetPosAck(session, x, y, z, ok);
    A.FieldsFit(m);
    var h, fs := A.Header(A.DestOf(m, dest), src, A.Sub(m)), A.Fields(m);
    FieldAt(h, fs, 0, 11, 2);
    FieldAt(h, fs, 1, 13, 4);
    FieldAt(h, fs, 2, 17, 4);
    FieldAt(h, fs, 3, 21, 4);
    FieldAt(h, fs, 4, 25, 1);
    FrameLength(h, fs, 26);
    OneByte(h + Encode(fs), 25);
  }

  lemma SurveyEndAt(session: nat, src: nat, dest: nat)
    requires A.InRange(A.SurveyEnd(session))
    ensures var b := A.Frame(A.SurveyEnd(session), src, dest); |b| == 13 && Val(b[11..13]) == session
  {
    var m := A.SurveyEnd(session);
    A.FieldsFit(m);
    var h, fs := A.Header(A.DestOf(m, dest), src, A.Sub(m)), A.Fields(m);
    FieldAt(h, fs, 0, 11, 2);
    FrameLength(h, fs, 13);
  }

  // ---- The network's own frames: the type at 9, the fields from 10 on ----

  lemma FixedTypeAt(m: M.Fixed, dest: nat, src: nat)
    requires M.FixedInRange(m) && A.U16(dest) && A.U16(src)
    ensures var b := M.FixedFrame(m, dest, src);
      && |b| >= 10 && Val(b[5..7]) == dest && Val(b[7..9]) == src
      && b[9] == match m {
           case Join(_, _) => 0xE6 case Grant(_, _, _, _, _) => 0xE7 case Keepalive(_, _) => 0xE8 case Release => 0xE9
           case Pos(_, _, _, _, _) => 0xEA case Response(_, _, _) => 0xE4
         }
  {
    M.CommonIsValid(dest, src, M.Tag(M.KindOf(m)), Encode(M.FixedFields(m)));
  }

  lemma JoinAt(eui: nat, tier: nat, dest: nat, src: nat)
    requires M.FixedInRange(M.Join(eui, tier))
    ensures var b := M.FixedFrame(M.Join(eui, tier), dest, src); |b| == 19 && Val(b[10..18]) == eui && Byte1(b, 18) == tier
  {
    var m := M.Join(eui, tier);
    M.FixedFieldsFit(m);
    var h, fs := Common(dest, src, M.Tag(M.KindOf(m))), M.FixedFields(m);
    FieldAt(h, fs, 0, 10, 8);
    FieldAt(h, fs, 1, 18, 1);
    FrameLength(h, fs, 19);
    OneByte(h + Encode(fs), 18);
  }

  lemma GrantAt(eui: nat, addr: nat, slot: nat, tier: nat, lease: nat, dest: nat, src: nat)
    requires M.FixedInRange(M.Grant(eui, addr, slot, tier, lease))
    ensures var b := M.FixedFrame(M.Grant(eui, addr, slot, tier, lease), dest, src);
      && |b| == 24 && Val(b[10..18]) == eui && Val(b[18..20]) == addr && Byte1(b, 20) == slot && Byte1(b, 21) == tier
      && Val(b[22..24]) == lease
  {
    var m := M.Grant(eui, addr, slot, tier, lease);
    M.FixedFieldsFit(m);
    var h, fs := Common(dest, src, M.Tag(M.KindOf(m))), M.FixedFields(m);
    FieldAt(h, fs, 0, 10, 8);
    FieldAt(h, fs, 1, 18, 2);
    FieldAt(h, fs, 2, 20, 1);
    FieldAt(h, fs, 3, 21, 1);
    FieldAt(h, fs, 4, 22, 2);
    FrameLength(h, fs, 24);
    OneByte(h + Encode(fs), 20);
    OneByte(h + Encode(fs), 21);
  }

  lemma KeepaliveAt(tier: nat, slot: nat, dest: nat, src: nat)
    requires M.FixedInRange(M.Keepalive(tier, slot))
    ensures var b := M.FixedFrame(M.Keepalive(tier, slot), dest, src); |b| == 12 && Byte1(b, 10) == tier && Byte1(b, 11) == slot
  {
    var m := M.Keepalive(tier, slot);
    M.FixedFieldsFit(m);
    var h, fs := Common(dest, src, M.Tag(M.KindOf(m))), M.FixedFields(m);
    FieldAt(h, fs, 0, 10, 1);
    FieldAt(h, fs, 1, 11, 1);
    FrameLength(h, fs, 12);
    OneByte(h + Encode(fs), 10);
    OneByte(h + Encode(fs), 11);
  }

  lemma PosAt(x: nat, y: nat, residual: nat, nAnchors: nat, soc: nat, dest: nat, src: nat)
    requires M.FixedInRange(M.Pos(x, y, residual, nAnchors, soc))
    ensures var b := M.FixedFrame(M.Pos(x, y, residual, nAnchors, soc), dest, src);
      && |b| == 24 && Val(b[10..14]) == x && Val(b[14..18]) == y && Val(b[18..22]) == residual
      && Byte1(b, 22) == nAnchors && Byte1(b, 23) == soc
  {
    var m := M.Pos(x, y, residual, nAnchors, soc);
    M.FixedFieldsFit(m);
    var h, fs := Common(dest, src, M.Tag(M.KindOf(m))), M.FixedFields(m);
    FieldAt(h, fs, 0, 10, 4);
    FieldAt(h, fs, 1, 14, 4);
    FieldAt(h, fs, 2, 18, 4);
    FieldAt(h, fs, 3, 22, 1);
    FieldAt(h, fs, 4, 23, 1);
    FrameLength(h, fs, 24);
    OneByte(h + Encode(fs), 22);
    OneByte(h + Encode(fs), 23);
  }

  lemma ResponseAt(ts: nat, power: int, quality: nat, dest: nat, src: nat)
    requires M.FixedInRange(M.Response(ts, power, quality))
    ensures var b := M.FixedFrame(M.Response(ts, power, quality), dest, src);
      && |b| == 20 && Val(b[10..14]) == ts && Val(b[14..18]) == (if power < 0 then power + 0x1_0000_0000 else power)
      && Val(b[18..20]) == quality
  {
    var m := M.Response(ts, power, quality);
    M.FixedFieldsFit(m);
    var h, fs := Common(dest, src, M.Tag(M.KindOf(m))), M.FixedFields(m);
    FieldAt(h, fs, 0, 10, 4);
    FieldAt(h, fs, 1, 14, 4);
    FieldAt(h, fs, 2, 18, 2);
    FrameLength(h, fs, 20);
  }

  /** The version at 10, the counter from 11, the slots from 15 on. */
  lemma BeaconAt(counter: nat, slots: seq<nat>, i: nat)
    requires A.U32(counter) && i < |slots| && A.U16(slots[i])
    ensures var b := M.BeaconFrame(counter, slots);
      && b[9] == 0xE5 && b[10] == 2 && Val(b[5..7]) == 0xFFFF && Val(b[7..9]) == 0
      && Val(b[11..15]) == counter && M.WordFrom(b, 15 + 2 * i) == slots[i]
  {
    var b, tail := M.BeaconFrame(counter, slots), M.Words(slots);
    HeaderAt(0xFFFF, 0, 0xE5);
    A.Bounds();
    ValOfLE(counter, 4);
    assert b[5..7] == Common(0xFFFF, 0, 0xE5)[5..7] && b[7..9] == Common(0xFFFF, 0, 0xE5)[7..9];
    assert b[11..15] == LE(counter, 4);
    M.WordRead(slots, i);
    assert b[15 + 2 * i] == tail[2 * i] && b[15 + 2 * i + 1] == tail[2 * i + 1];
  }

  lemma {:induction false} FlatAt(slots: seq<M.AnchorSlot>, i: nat)
    requires i < |slots|
    ensures M.Flat(slots)[2 * i] == slots[i].addr && M.Flat(slots)[2 * i + 1] == slots[i].delay
  {
    if i < |slots| - 1 { FlatAt(slots[..|slots| - 1], i); }
  }

  /** The number of anchors at 10, then their addresses and delays, and the time at the end. */
  lemma MultiPollAt(src: nat, slots: seq<M.AnchorSlot>, ts: nat, i: nat)
    requires A.U16(src) && A.U32(ts) && i < |slots| <= M.MAX_ANCHORS && A.U16(slots[i].addr) && A.U16(slots[i].delay)
    ensures var b := M.MultiPollFrame(src, slots, ts);
      && b[9] == 0xE3 && b[10] == |slots| && Val(b[5..7]) == 0xFFFF && Val(b[7..9]) == src
      && M.WordFrom(b, 11 + 4 * i) == slots[i].addr && M.WordFrom(b, 13 + 4 * i) == slots[i].delay
      && Val(b[11 + 4 * |slots|..15 + 4 * |slots|]) == ts
  {
    var b, ws := M.MultiPollFrame(src, slots, ts), M.Words(M.Flat(slots));
    HeaderAt(0xFFFF, src, 0xE3);
    A.Bounds();
    ValOfLE(ts, 4);
    assert b[5..7] == Common(0xFFFF, src, 0xE3)[5..7] && b[7..9] == Common(0xFFFF, src, 0xE3)[7..9];
    assert b[11 + 4 * |slots|..15 + 4 * |slots|] == LE(ts, 4);
    FlatAt(slots, i);
    M.WordRead(M.Flat(slots), 2 * i);
    M.WordRead(M.Flat(slots), 2 * i + 1);
    WordAfter(b, M.MultiPollHead(src, |slots|), ws, LE(ts, 4), 4 * i);
    WordAfter(b, M.MultiPollHead(src, |slots|), ws, LE(ts, 4), 4 * i + 2);
  }

  lemma WordAfter(b: seq<Byte>, h: seq<Byte>, ws: seq<Byte>, tail: seq<Byte>, at: nat)
    requires b == h + ws + tail && at + 2 <= |ws|
    ensures M.WordFrom(b, |h| + at) == M.WordFrom(ws, at)
  {
    assert b[|h| + at] == ws[at] && b[|h| + at + 1] == ws[at + 1];
  }
}
