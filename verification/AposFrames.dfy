/** The survey's frames on the wire: seven messages behind one header. */
module AposFrames {
  import opened Addresses
  import opened Options
  import opened Wire

  const HDR_LEN: nat := 11
  const TYPE: Byte := 0xEB
  const EMSGSIZE: int := -90

  /** Coordinates are the bit patterns of 32-bit floats. */
  datatype Apos =
    | SurveyBegin(session: nat, window: nat)
    | EnumRsp(session: nat, eui: nat, posValid: bool, x: nat, y: nat, z: nat)
    | RangeCmd(session: nat, peer: nat, nExchanges: nat)
    | RangeRsp(session: nat, peer: nat, mean: int, sd: nat, nOk: nat)
    | SetPos(session: nat, x: nat, y: nat, z: nat)
    | SetPosAck(session: nat, x: nat, y: nat, z: nat, ok: bool)
    | SurveyEnd(session: nat)

  predicate U8(v: nat) { v < 0x100 }
  predicate U16(v: nat) { v < 0x1_0000 }
  predicate U32(v: nat) { v < 0x1_0000_0000 }
  predicate U64(v: nat) { v < 0x1_0000_0000_0000_0000 }
  predicate I32(v: int) { -0x8000_0000 <= v < 0x8000_0000 }

  /** Every field fits its C type. */
  predicate InRange(m: Apos) {
    match m
    case SurveyBegin(s, w) => U16(s) && U16(w)
    case EnumRsp(s, e, _, x, y, z) => U16(s) && U64(e) && U32(x) && U32(y) && U32(z)
    case RangeCmd(s, p, n) => U16(s) && U16(p) && U8(n)
    case RangeRsp(s, p, mean, sd, n) => U16(s) && U16(p) && I32(mean) && U16(sd) && U8(n)
    case SetPos(s, x, y, z) => U16(s) && U32(x) && U32(y) && U32(z)
    case SetPosAck(s, x, y, z, _) => U16(s) && U32(x) && U32(y) && U32(z)
    case SurveyEnd(s) => U16(s)
  }

  function Sub(m: Apos): (s: Byte)
    ensures 1 <= s <= 7
  {
    match m
    case SurveyBegin(_, _) => 1
    case EnumRsp(_, _, _, _, _, _) => 2
    case RangeCmd(_, _, _) => 3
    case RangeRsp(_, _, _, _, _) => 4
    case SetPos(_, _, _, _) => 5
    case SetPosAck(_, _, _, _, _) => 6
    case SurveyEnd(_) => 7
  }

  function Flag(b: bool): nat { if b then 1 else 0 }

  function Fields(m: Apos): seq<Field>
    requires InRange(m)
  {
    match m
    case SurveyBegin(s, w) => [Field(2, s), Field(2, w)]
    case EnumRsp(s, e, v, x, y, z) => [Field(2, s), Field(8, e), Field(1, Flag(v)), Field(4, x), Field(4, y), Field(4, z)]
    case RangeCmd(s, p, n) => [Field(2, s), Field(2, p), Field(1, n)]
    case RangeRsp(s, p, mean, sd, n) => [Field(2, s), Field(2, p), Field(4, Unsigned(mean)), Field(2, sd), Field(1, n)]
    case SetPos(s, x, y, z) => [Field(2, s), Field(4, x), Field(4, y), Field(4, z)]
    case SetPosAck(s, x, y, z, ok) => [Field(2, s), Field(4, x), Field(4, y), Field(4, z), Field(1, Flag(ok))]
    case SurveyEnd(s) => [Field(2, s)]
  }

  function Layout(sub: Byte): seq<nat>
    requires 1 <= sub <= 7
  {
    match sub
    case 1 => [2, 2]
    case 2 => [2, 8, 1, 4, 4, 4]
    case 3 => [2, 2, 1]
    case 4 => [2, 2, 4, 2, 1]
    case 5 => [2, 4, 4, 4]
    case 6 => [2, 4, 4, 4, 1]
    case 7 => [2]
  }

  /** The exact length of a frame of each subtype. */
  function Length(sub: Byte): (n: nat)
    requires 1 <= sub <= 7
    ensures n == HDR_LEN + Total(Layout(sub))
  {
    match sub
    case 1 => TotalOf2(2, 2); 15
    case 2 => TotalOf6(2, 8, 1, 4, 4, 4); 34
    case 3 => TotalOf3(2, 2, 1); 16
    case 4 => TotalOf5(2, 2, 4, 2, 1); 22
    case 5 => TotalOf4(2, 4, 4, 4); 25
    case 6 => TotalOf5(2, 4, 4, 4, 1); 26
    case 7 => TotalOf1(2); 13
  }

  lemma TotalOf1(a: nat)
    ensures Total([a]) == a
  {
    assert [a][1..] == [];
  }

  lemma TotalOf2(a: nat, b: nat)
    ensures Total([a, b]) == a + b
  {
    assert [a, b][1..] == [b];
    TotalOf1(b);
  }

  lemma TotalOf3(a: nat, b: nat, c: nat)
    ensures Total([a, b, c]) == a + b + c
  {
    assert [a, b, c][1..] == [b, c];
    TotalOf2(b, c);
  }

  lemma TotalOf4(a: nat, b: nat, c: nat, d: nat)
    ensures Total([a, b, c, d]) == a + b + c + d
  {
    assert [a, b, c, d][1..] == [b, c, d];
    TotalOf3(b, c, d);
  }

  lemma TotalOf5(a: nat, b: nat, c: nat, d: nat, e: nat)
    ensures Total([a, b, c, d, e]) == a + b + c + d + e
  {
    assert [a, b, c, d, e][1..] == [b, c, d, e];
    TotalOf4(b, c, d, e);
  }

  lemma TotalOf6(a: nat, b: nat, c: nat, d: nat, e: nat, f: nat)
    ensures Total([a, b, c, d, e, f]) == a + b + c + d + e + f
  {
    assert [a, b, c, d, e, f][1..] == [b, c, d, e, f];
    TotalOf5(b, c, d, e, f);
  }

  function FromValues(sub: Byte, vs: seq<nat>): Apos
    requires 1 <= sub <= 7 && |vs| == |Layout(sub)|
    requires sub == 4 ==> U32(vs[2])
  {
    match sub
    case 1 => SurveyBegin(vs[0], vs[1])
    case 2 => EnumRsp(vs[0], vs[1], vs[2] != 0, vs[3], vs[4], vs[5])
    case 3 => RangeCmd(vs[0], vs[1], vs[2])
    case 4 => RangeRsp(vs[0], vs[1], Signed(vs[2]), vs[3], vs[4])
    case 5 => SetPos(vs[0], vs[1], vs[2], vs[3])
    case 6 => SetPosAck(vs[0], vs[1], vs[2], vs[3], vs[4] != 0)
    case 7 => SurveyEnd(vs[0])
  }

  // ---- Frames ----

  function Header(dest: nat, src: nat, sub: Byte): (h: seq<Byte>)
    ensures |h| == HDR_LEN
  {
    Common(dest, src, TYPE) + [sub]
  }

  /** The announcements that open and close a window go to everyone. */
  function DestOf(m: Apos, dest: nat): nat { if m.SurveyBegin? || m.SurveyEnd? then BROADCAST else dest }

  function Frame(m: Apos, src: nat, dest: nat): seq<Byte>
    requires InRange(m)
  {
    Header(DestOf(m, dest), src, Sub(m)) + Encode(Fields(m))
  }

  predicate IsApos(b: seq<Byte>) {
    |b| >= HDR_LEN && b[0] == 0x41 && b[1] == 0x88 && b[3] == 0xCA && b[4] == 0xDE && b[9] == TYPE && 1 <= b[10] <= 7
  }

  function Dest(b: seq<Byte>): nat
    requires |b| >= HDR_LEN
  {
    Val(b[5..7])
  }

  function Src(b: seq<Byte>): nat
    requires |b| >= HDR_LEN
  {
    Val(b[7..9])
  }

  /** The parser of one subtype. */
  function Parse(b: seq<Byte>, sub: Byte): Option<Apos>
    requires 1 <= sub <= 7
  {
    if !IsApos(b) || b[10] != sub || |b| != Length(sub) then None
    else
      DecodedFit(Layout(sub), b[HDR_LEN..]);
      assert Bound(4) == 0x1_0000_0000;
      Some(FromValues(sub, Decode(Layout(sub), b[HDR_LEN..])))
  }

  // ---- Round trips ----

  lemma Bounds()
    ensures Bound(1) == 0x100 && Bound(2) == 0x1_0000 && Bound(4) == 0x1_0000_0000 && Bound(8) == 0x1_0000_0000_0000_0000
  {
    assert Bound(5) == 256 * Bound(4) && Bound(6) == 256 * Bound(5) && Bound(7) == 256 * Bound(6) && Bound(8) == 256 * Bound(7);
  }

  lemma FieldsFit(m: Apos)
    requires InRange(m)
    ensures AllFit(Fields(m)) && Widths(Fields(m)) == Layout(Sub(m))
  {
    Bounds();
  }

  lemma FromOwnValues(m: Apos)
    requires InRange(m)
    ensures |Values(Fields(m))| == |Layout(Sub(m))| && (m.RangeRsp? ==> U32(Values(Fields(m))[2]))
    ensures FromValues(Sub(m), Values(Fields(m))) == m
  {}

  lemma HeaderBytes(dest: nat, src: nat, sub: Byte)
    requires U16(dest) && U16(src) && 1 <= sub <= 7
    ensures IsApos(Header(dest, src, sub)) && Header(dest, src, sub)[10] == sub
    ensures Dest(Header(dest, src, sub)) == dest && Src(Header(dest, src, sub)) == src
  {
    var h := Header(dest, src, sub);
    Bounds();
    ValOfLE(dest, 2);
    ValOfLE(src, 2);
    assert h[5..7] == LE(dest, 2) && h[7..9] == LE(src, 2);
  }

  /** Every message survives the wire, and no parser of another subtype takes it. */
  lemma RoundTrip(m: Apos, src: nat, dest: nat, sub: Byte)
    requires InRange(m) && U16(src) && U16(dest) && 1 <= sub <= 7
    ensures Parse(Frame(m, src, dest), sub) == if sub == Sub(m) then Some(m) else None
    ensures |Frame(m, src, dest)| == Length(Sub(m))
    ensures Src(Frame(m, src, dest)) == src && Dest(Frame(m, src, dest)) == DestOf(m, dest)
  {
    var h, p, b := Header(DestOf(m, dest), src, Sub(m)), Encode(Fields(m)), Frame(m, src, dest);
    HeaderBytes(DestOf(m, dest), src, Sub(m));
    FieldsFit(m);
    DecodeOfEncode(Fields(m));
    FromOwnValues(m);
    assert b[5..7] == h[5..7] && b[7..9] == h[7..9] && b[HDR_LEN..] == p;
    assert forall i :: 0 <= i < HDR_LEN ==> b[i] == h[i];
  }

  /** A frame with anything after it, such as an unsubtracted checksum, is refused. */
  lemma TrailingBytesRefused(m: Apos, src: nat, dest: nat, extra: seq<Byte>, sub: Byte)
    requires InRange(m) && U16(src) && U16(dest) && 1 <= sub <= 7 && extra != []
    ensures Parse(Frame(m, src, dest) + extra, sub) == None
  {
    RoundTrip(m, src, dest, Sub(m));
    var b := Frame(m, src, dest) + extra;
    assert b[10] == Frame(m, src, dest)[10] == Sub(m);
  }

  lemma ZippedFields(sub: Byte, vs: seq<nat>)
    requires 1 <= sub <= 7 && |vs| == |Layout(sub)| && forall i :: 0 <= i < |vs| ==> vs[i] < Bound(Layout(sub)[i])
    ensures sub == 4 ==> U32(vs[2])
    ensures InRange(FromValues(sub, vs))
    ensures sub != 2 && sub != 6 ==> Fields(FromValues(sub, vs)) == Zip(Layout(sub), vs)
  {
    Bounds();
  }

  /** What a parser accepts is a message in range; where no flag byte is read as a boolean, the
      message encodes to exactly the payload it was read from. */
  lemma ParsedIsFaithful(b: seq<Byte>, sub: Byte)
    requires 1 <= sub <= 7 && Parse(b, sub).Some?
    ensures var m := Parse(b, sub).value;
      && InRange(m) && Sub(m) == sub
      && (sub != 2 && sub != 6 ==> Encode(Fields(m)) == b[HDR_LEN..])
  {
    var p := b[HDR_LEN..];
    DecodedFit(Layout(sub), p);
    ZippedFields(sub, Decode(Layout(sub), p));
    EncodeOfDecode(Layout(sub), p);
  }

  // ---- The builders, writing into the caller's buffer ----

  /** A buffer too short is refused and left alone; otherwise it starts with the frame and is
      as before behind it. */
  ghost predicate Built(was: seq<Byte>, now: seq<Byte>, m: Apos, src: nat, dest: nat, rc: int)
    requires InRange(m)
  {
    if |was| < Length(Sub(m)) then rc == EMSGSIZE && now == was
    else rc == Length(Sub(m)) && Wrote(was, now, 0, Frame(m, src, dest))
  }

  method WriteHeader(buf: array<Byte>, dest: nat, src: nat, sub: Byte)
    requires buf.Length >= HDR_LEN
    modifies buf
    ensures Filled(old(buf[..]), buf[..], Header(dest, src, sub), [])
  {
    ghost var was := buf[..];
    WriteCommon(buf, dest, src, TYPE);
    ghost var a := buf[..];
    PutU8(buf, 10, sub);
    assert LE(sub, 1) == [sub];
    WroteMore(was, a, buf[..], 0, Common(dest, src, TYPE), [sub]);
    assert Header(dest, src, sub) + Encode([]) == Header(dest, src, sub);
  }

  method BuildSurveyBegin(buf: array<Byte>, src: nat, dest: nat, session: nat, window: nat) returns (rc: int)
    requires U16(src) && U16(dest) && InRange(SurveyBegin(session, window))
    modifies buf
    ensures Built(old(buf[..]), buf[..], SurveyBegin(session, window), src, dest, rc)
  {
    if buf.Length < 15 { return EMSGSIZE; }
    Bounds();
    ghost var was, h := buf[..], Header(DestOf(SurveyBegin(session, window), dest), src, Sub(SurveyBegin(session, window)));
    WriteHeader(buf, BROADCAST, src, Sub(SurveyBegin(session, window)));
    ghost var f0: seq<Field> := [];
    ghost var f1 := Put(buf, 11, Field(2, session), was, h, f0);
    ghost var f2 := Put(buf, 13, Field(2, window), was, h, f1);
    assert f2 == Fields(SurveyBegin(session, window));
    return 15;
  }

  method BuildEnumRsp(buf: array<Byte>, src: nat, dest: nat, session: nat, eui: nat, posValid: bool, x: nat, y: nat, z: nat) returns (rc: int)
    requires U16(src) && U16(dest) && InRange(EnumRsp(session, eui, posValid, x, y, z))
    modifies buf
    ensures Built(old(buf[..]), buf[..], EnumRsp(session, eui, posValid, x, y, z), src, dest, rc)
  {
    if buf.Length < 34 { return EMSGSIZE; }
    Bounds();
    ghost var was, h := buf[..], Header(DestOf(EnumRsp(session, eui, posValid, x, y, z), dest), src, Sub(EnumRsp(session, eui, posValid, x, y, z)));
    WriteHeader(buf, dest, src, Sub(EnumRsp(session, eui, posValid, x, y, z)));
    ghost var f0: seq<Field> := [];
    ghost var f1 := Put(buf, 11, Field(2, session), was, h, f0);
    ghost var f2 := Put(buf, 13, Field(8, eui), was, h, f1);
    ghost var f3 := Put(buf, 21, Field(1, Flag(posValid)), was, h, f2);
    ghost var f4 := Put(buf, 22, Field(4, x), was, h, f3);
    ghost var f5 := Put(buf, 26, Field(4, y), was, h, f4);
    ghost var f6 := Put(buf, 30, Field(4, z), was, h, f5);
    assert f6 == Fields(EnumRsp(session, eui, posValid, x, y, z));
    return 34;
  }

  method BuildRangeCmd(buf: array<Byte>, src: nat, dest: nat, session: nat, peer: nat, nExchanges: nat) returns (rc: int)
    requires U16(src) && U16(dest) && InRange(RangeCmd(session, peer, nExchanges))
    modifies buf
    ensures Built(old(buf[..]), buf[..], RangeCmd(session, peer, nExchanges), src, dest, rc)
  {
    if buf.Length < 16 { return EMSGSIZE; }
    Bounds();
    ghost var was, h := buf[..], Header(DestOf(RangeCmd(session, peer, nExchanges), dest), src, Sub(RangeCmd(session, peer, nExchanges)));
    WriteHeader(buf, dest, src, Sub(RangeCmd(session, peer, nExchanges)));
    ghost var f0: seq<Field> := [];
    ghost var f1 := Put(buf, 11, Field(2, session), was, h, f0);
    ghost var f2 := Put(buf, 13, Field(2, peer), was, h, f1);
    ghost var f3 := Put(buf, 15, Field(1, nExchanges), was, h, f2);
    assert f3 == Fields(RangeCmd(session, peer, nExchanges));
    return 16;
  }

  method BuildRangeRsp(buf: array<Byte>, src: nat, dest: nat, session: nat, peer: nat, mean: int, sd: nat, nOk: nat) returns (rc: int)
    requires U16(src) && U16(dest) && InRange(RangeRsp(session, peer, mean, sd, nOk))
    modifies buf
    ensures Built(old(buf[..]), buf[..], RangeRsp(session, peer, mean, sd, nOk), src, dest, rc)
  {
    if buf.Length < 22 { return EMSGSIZE; }
    Bounds();
    ghost var was, h := buf[..], Header(DestOf(RangeRsp(session, peer, mean, sd, nOk), dest), src, Sub(RangeRsp(session, peer, mean, sd, nOk)));
    WriteHeader(buf, dest, src, Sub(RangeRsp(session, peer, mean, sd, nOk)));
    ghost var f0: seq<Field> := [];
    ghost var f1 := Put(buf, 11, Field(2, session), was, h, f0);
    ghost var f2 := Put(buf, 13, Field(2, peer), was, h, f1);
    ghost var f3 := Put(buf, 15, Field(4, Unsigned(mean)), was, h, f2);
    ghost var f4 := Put(buf, 19, Field(2, sd), was, h, f3);
    ghost var f5 := Put(buf, 21, Field(1, nOk), was, h, f4);
    assert f5 == Fields(RangeRsp(session, peer, mean, sd, nOk));
    return 22;
  }

  method BuildSetPos(buf: array<Byte>, src: nat, dest: nat, session: nat, x: nat, y: nat, z: nat) returns (rc: int)
    requires U16(src) && U16(dest) && InRange(SetPos(session, x, y, z))
    modifies buf
    ensures Built(old(buf[..]), buf[..], SetPos(session, x, y, z), src, dest, rc)
  {
    if buf.Length < 25 { return EMSGSIZE; }
    Bounds();
    ghost var was, h := buf[..], Header(DestOf(SetPos(session, x, y, z), dest), src, Sub(SetPos(session, x, y, z)));
    WriteHeader(buf, dest, src, Sub(SetPos(session, x, y, z)));
    ghost var f0: seq<Field> := [];
    ghost var f1 := Put(buf, 11, Field(2, session), was, h, f0);
    ghost var f2 := Put(buf, 13, Field(4, x), was, h, f1);
    ghost var f3 := Put(buf, 17, Field(4, y), was, h, f2);
    ghost var f4 := Put(buf, 21, Field(4, z), was, h, f3);
    assert f4 == Fields(SetPos(session, x, y, z));
    return 25;
  }

  method BuildSetPosAck(buf: array<Byte>, src: nat, dest: nat, session: nat, x: nat, y: nat, z: nat, ok: bool) returns (rc: int)
    requires U16(src) && U16(dest) && InRange(SetPosAck(session, x, y, z, ok))
    modifies buf
    ensures Built(old(buf[..]), buf[..], SetPosAck(session, x, y, z, ok), src, dest, rc)
  {
    if buf.Length < 26 { return EMSGSIZE; }
    Bounds();
    ghost var was, h := buf[..], Header(DestOf(SetPosAck(session, x, y, z, ok), dest), src, Sub(SetPosAck(session, x, y, z, ok)));
    WriteHeader(buf, dest, src, Sub(SetPosAck(session, x, y, z, ok)));
    ghost var f0: seq<Field> := [];
    ghost var f1 := Put(buf, 11, Field(2, session), was, h, f0);
    ghost var f2 := Put(buf, 13, Field(4, x), was, h, f1);
    ghost var f3 := Put(buf, 17, Field(4, y), was, h, f2);
    ghost var f4 := Put(buf, 21, Field(4, z), was, h, f3);
    ghost var f5 := Put(buf, 25, Field(1, Flag(ok)), was, h, f4);
    assert f5 == Fields(SetPosAck(session, x, y, z, ok));
    return 26;
  }

  method BuildSurveyEnd(buf: array<Byte>, src: nat, dest: nat, session: nat) returns (rc: int)
    requires U16(src) && U16(dest) && InRange(SurveyEnd(session))
    modifies buf
    ensures Built(old(buf[..]), buf[..], SurveyEnd(session), src, dest, rc)
  {
    if buf.Length < 13 { return EMSGSIZE; }
    Bounds();
    ghost var was, h := buf[..], Header(DestOf(SurveyEnd(session), dest), src, Sub(SurveyEnd(session)));
    WriteHeader(buf, BROADCAST, src, Sub(SurveyEnd(session)));
    ghost var f0: seq<Field> := [];
    ghost var f1 := Put(buf, 11, Field(2, session), was, h, f0);
    assert f1 == Fields(SurveyEnd(session));
    return 13;
  }
}
