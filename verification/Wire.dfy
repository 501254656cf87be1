/** Little-endian numbers and sequences of fixed-width fields on the wire. */
module Wire {
  type Byte = b: nat | b < 256

  /** One more than the largest number of k bytes. */
  function Bound(k: nat): (n: nat)
    ensures n > 0
  {
    if k == 0 then 1 else 256 * Bound(k - 1)
  }

  function LE(v: nat, k: nat): (s: seq<Byte>)
    ensures |s| == k
  {
    if k == 0 then [] else [v % 256] + LE(v / 256, k - 1)
  }

  function Val(s: seq<Byte>): nat { if s == [] then 0 else s[0] + 256 * Val(s[1..]) }

  lemma {:induction false} ValOfLE(v: nat, k: nat)
    requires v < Bound(k)
    ensures Val(LE(v, k)) == v
  {
    if k > 0 {
      assert LE(v, k)[1..] == LE(v / 256, k - 1);
      ValOfLE(v / 256, k - 1);
    }
  }

  lemma {:induction false} LEOfVal(s: seq<Byte>)
    ensures LE(Val(s), |s|) == s && Val(s) < Bound(|s|)
  {
    if s != [] {
      LEOfVal(s[1..]);
      assert Val(s) / 256 == Val(s[1..]) && Val(s) % 256 == s[0];
      assert s == [s[0]] + s[1..];
    }
  }

  /** A two's complement 32-bit number as it lies on the wire, and back. */
  function Unsigned(x: int): (u: nat)
    requires -0x8000_0000 <= x < 0x8000_0000
    ensures u < 0x1_0000_0000
  {
    if x < 0 then x + 0x1_0000_0000 else x
  }

  function Signed(u: nat): (x: int)
    requires u < 0x1_0000_0000
    ensures -0x8000_0000 <= x < 0x8000_0000 && Unsigned(x) == u
  {
    if u >= 0x8000_0000 then u - 0x1_0000_0000 else u
  }

  datatype Field = Field(width: nat, value: nat)

  predicate Fits(f: Field) { f.value < Bound(f.width) }

  predicate AllFit(fs: seq<Field>) { forall f :: f in fs ==> Fits(f) }

  function Encode(fs: seq<Field>): seq<Byte> { if fs == [] then [] else LE(fs[0].value, fs[0].width) + Encode(fs[1..]) }

  function Total(ws: seq<nat>): nat { if ws == [] then 0 else ws[0] + Total(ws[1..]) }

  function Widths(fs: seq<Field>): (ws: seq<nat>)
    ensures |ws| == |fs|
  {
    seq(|fs|, i requires 0 <= i < |fs| => fs[i].width)
  }

  function Values(fs: seq<Field>): (vs: seq<nat>)
    ensures |vs| == |fs|
  {
    seq(|fs|, i requires 0 <= i < |fs| => fs[i].value)
  }

  /** The values of consecutive fields of the given widths. */
  function Decode(ws: seq<nat>, b: seq<Byte>): (vs: seq<nat>)
    requires |b| == Total(ws)
    ensures |vs| == |ws|
  {
    if ws == [] then [] else [Val(b[..ws[0]])] + Decode(ws[1..], b[ws[0]..])
  }

  lemma {:induction false} EncodeLength(fs: seq<Field>)
    ensures |Encode(fs)| == Total(Widths(fs))
  {
    if fs != [] {
      EncodeLength(fs[1..]);
      assert Widths(fs)[1..] == Widths(fs[1..]);
    }
  }

  lemma {:induction false} DecodeOfEncode(fs: seq<Field>)
    requires AllFit(fs)
    ensures |Encode(fs)| == Total(Widths(fs)) && Decode(Widths(fs), Encode(fs)) == Values(fs)
  {
    EncodeLength(fs);
    if fs != [] {
      assert Fits(fs[0]);
      DecodeOfEncode(fs[1..]);
      ValOfLE(fs[0].value, fs[0].width);
      assert Widths(fs)[1..] == Widths(fs[1..]);
      assert Encode(fs)[..fs[0].width] == LE(fs[0].value, fs[0].width) && Encode(fs)[fs[0].width..] == Encode(fs[1..]);
      assert Values(fs) == [fs[0].value] + Values(fs[1..]);
    }
  }

  function Zip(ws: seq<nat>, vs: seq<nat>): (fs: seq<Field>)
    requires |ws| == |vs|
    ensures |fs| == |ws|
  {
    seq(|ws|, i requires 0 <= i < |ws| => Field(ws[i], vs[i]))
  }

  lemma {:induction false} DecodedFit(ws: seq<nat>, b: seq<Byte>)
    requires |b| == Total(ws)
    ensures forall i :: 0 <= i < |ws| ==> Decode(ws, b)[i] < Bound(ws[i])
  {
    if ws != [] {
      DecodedFit(ws[1..], b[ws[0]..]);
      LEOfVal(b[..ws[0]]);
    }
  }

  lemma {:induction false} EncodeOfDecode(ws: seq<nat>, b: seq<Byte>)
    requires |b| == Total(ws)
    ensures Encode(Zip(ws, Decode(ws, b))) == b
  {
    if ws != [] {
      EncodeOfDecode(ws[1..], b[ws[0]..]);
      LEOfVal(b[..ws[0]]);
      assert Zip(ws, Decode(ws, b))[1..] == Zip(ws[1..], Decode(ws[1..], b[ws[0]..]));
      assert b == b[..ws[0]] + b[ws[0]..];
    }
  }

  lemma {:induction false} EncodeConcat(a: seq<Field>, b: seq<Field>)
    ensures Encode(a + b) == Encode(a) + Encode(b)
  {
    if a == [] {
      assert a + b == b;
    } else {
      assert (a + b)[1..] == a[1..] + b;
      EncodeConcat(a[1..], b);
    }
  }

  lemma EncodeOne(f: Field)
    ensures Encode([f]) == LE(f.value, f.width)
  {
    assert [f][1..] == [];
  }

  // ---- Writing a buffer in place ----

  /** The bytes from off on were replaced by the given ones, and nothing else was. */
  ghost predicate Wrote(was: seq<Byte>, now: seq<Byte>, off: nat, bytes: seq<Byte>) {
    && off + |bytes| <= |was|
    && now == was[..off] + bytes + was[off + |bytes|..]
  }

  lemma WroteMore(a: seq<Byte>, b: seq<Byte>, c: seq<Byte>, off: nat, p: seq<Byte>, q: seq<Byte>)
    requires Wrote(a, b, off, p) && Wrote(b, c, off + |p|, q)
    ensures Wrote(a, c, off, p + q)
  {}

  lemma LE2(v: nat)
    ensures LE(v, 2) == [v % 256, v / 256 % 256]
  {
    assert LE(v / 256, 1) == [v / 256 % 256] + LE(v / 256 / 256, 0);
  }

  lemma LE4(v: nat)
    ensures LE(v, 4) == [v % 256, v / 256 % 256, v / 256 / 256 % 256, v / 256 / 256 / 256 % 256]
  {
    LE2(v / 256 / 256);
    assert LE(v / 256, 3) == [v / 256 % 256] + LE(v / 256 / 256, 2);
  }

  method PutU8(buf: array<Byte>, off: nat, v: nat)
    requires off + 1 <= buf.Length && v < 256
    modifies buf
    ensures Wrote(old(buf[..]), buf[..], off, LE(v, 1))
  {
    buf[off] := v;
  }

  method PutU16(buf: array<Byte>, off: nat, v: nat)
    requires off + 2 <= buf.Length
    modifies buf
    ensures Wrote(old(buf[..]), buf[..], off, LE(v, 2))
  {
    LE2(v);
    buf[off] := v % 256;
    buf[off + 1] := v / 256 % 256;
  }

  method PutU32(buf: array<Byte>, off: nat, v: nat)
    requires off + 4 <= buf.Length
    modifies buf
    ensures Wrote(old(buf[..]), buf[..], off, LE(v, 4))
  {
    LE4(v);
    buf[off] := v % 256;
    buf[off + 1] := v / 256 % 256;
    buf[off + 2] := v / 256 / 256 % 256;
    buf[off + 3] := v / 256 / 256 / 256 % 256;
  }

  method PutBytes(buf: array<Byte>, off: nat, bytes: seq<Byte>)
    requires off + |bytes| <= buf.Length
    modifies buf
    ensures Wrote(old(buf[..]), buf[..], off, bytes)
  {
    ghost var was := buf[..];
    for i := 0 to |bytes|
      invariant forall k :: 0 <= k < i ==> buf[off + k] == bytes[k]
      invariant forall k :: 0 <= k < buf.Length && (k < off || k >= off + i) ==> buf[k] == was[k]
    {
      buf[off + i] := bytes[i];
    }
  }

  /** The buffer starts with a header and some fields, and is otherwise as it was. */
  ghost predicate Filled(was: seq<Byte>, now: seq<Byte>, h: seq<Byte>, fs: seq<Field>) {
    Wrote(was, now, 0, h + Encode(fs))
  }

  /** Appends one field of 1, 2, 4 or 8 bytes. */
  method Put(buf: array<Byte>, off: nat, f: Field, ghost was: seq<Byte>, ghost h: seq<Byte>, ghost fs: seq<Field>)
    returns (ghost gs: seq<Field>)
    requires Filled(was, buf[..], h, fs) && off == |h + Encode(fs)| && off + f.width <= buf.Length
    requires f.width in {1, 2, 4, 8} && Fits(f)
    modifies buf
    ensures gs == fs + [f] && Filled(was, buf[..], h, gs) && |h + Encode(gs)| == off + f.width
  {
    gs := fs + [f];
    ghost var before := buf[..];
    match f.width {
      case 1 => PutU8(buf, off, f.value);
      case 2 => PutU16(buf, off, f.value);
      case 4 => PutU32(buf, off, f.value);
      case _ => PutBytes(buf, off, LE(f.value, f.width));
    }
    Appended(was, before, buf[..], h, fs, f);
  }

  lemma Appended(was: seq<Byte>, before: seq<Byte>, now: seq<Byte>, h: seq<Byte>, fs: seq<Field>, f: Field)
    requires Filled(was, before, h, fs) && Wrote(before, now, |h + Encode(fs)|, LE(f.value, f.width))
    ensures Filled(was, now, h, fs + [f]) && |h + Encode(fs + [f])| == |h + Encode(fs)| + f.width
  {
    WroteMore(was, before, now, 0, h + Encode(fs), LE(f.value, f.width));
    EncodeConcat(fs, [f]);
    EncodeOne(f);
    assert h + Encode(fs + [f]) == (h + Encode(fs)) + LE(f.value, f.width);
  }

  // ---- The header all frames share ----

  const START: seq<Byte> := [0x41, 0x88, 0, 0xCA, 0xDE]

  /** Frame control, sequence number 0, network, destination, source, type. */
  function Common(dest: nat, src: nat, kind: Byte): (h: seq<Byte>)
    ensures |h| == 10
  {
    START + LE(dest, 2) + LE(src, 2) + [kind]
  }

  method WriteStart(buf: array<Byte>)
    requires buf.Length >= 5
    modifies buf
    ensures Wrote(old(buf[..]), buf[..], 0, START)
  {
    buf[0], buf[1], buf[2], buf[3], buf[4] := 0x41, 0x88, 0, 0xCA, 0xDE;
  }

  method WriteCommon(buf: array<Byte>, dest: nat, src: nat, kind: Byte)
    requires buf.Length >= 10
    modifies buf
    ensures Wrote(old(buf[..]), buf[..], 0, Common(dest, src, kind))
  {
    ghost var was := buf[..];
    WriteStart(buf);
    ghost var a := buf[..];
    PutU16(buf, 5, dest);
    ghost var b := buf[..];
    WroteMore(was, a, b, 0, START, LE(dest, 2));
    PutU16(buf, 7, src);
    ghost var c := buf[..];
    WroteMore(was, b, c, 0, START + LE(dest, 2), LE(src, 2));
    PutU8(buf, 9, kind);
    WroteMore(was, c, buf[..], 0, START + LE(dest, 2) + LE(src, 2), LE(kind, 1));
    assert LE(kind, 1) == [kind];
  }
}
