/** The stored calibration record and its integrity check. */
module CalRecords {
  import opened ByteRegister
  import opened Crc32

  const MAGIC: bv32 := 0xCA11_B000
  const VERSION: bv8 := 1
  const CRC_LEN: nat := 20
  const RECORD_LEN: nat := 24

  datatype Record = Record(
    magic: bv32, version: bv8, phy: bv8, tx: bv16, rx: bv16, pad: bv16, refMm: bv32, residual: bv16, pad2: bv16, crc: bv32)

  function LE16(x: bv16): (r: seq<bv8>)
    ensures |r| == 2
  {
    [(x & 0xFF) as bv8, (x >> 8) as bv8]
  }

  function Word16(lo: bv8, hi: bv8): bv16 { (lo as bv16) | ((hi as bv16) << 8) }

  function Word32(b0: bv8, b1: bv8, b2: bv8, b3: bv8): bv32 {
    (((b0 as bv32) | ((b1 as bv32) << 8)) | ((b2 as bv32) << 16)) | ((b3 as bv32) << 24)
  }

  /** The bytes in front of the checksum, as they lie in memory. */
  function Covered(r: Record): (raw: seq<bv8>)
    ensures |raw| == CRC_LEN
  {
    LE32(r.magic) + [r.version, r.phy] + LE16(r.tx) + LE16(r.rx) + LE16(r.pad) + LE32(r.refMm) + LE16(r.residual) + LE16(r.pad2)
  }

  function Bytes(r: Record): (raw: seq<bv8>)
    ensures |raw| == RECORD_LEN
  {
    Covered(r) + LE32(r.crc)
  }

  function FromBytes(b: seq<bv8>): Record
    requires |b| == RECORD_LEN
  {
    Record(Word32(b[0], b[1], b[2], b[3]), b[4], b[5], Word16(b[6], b[7]), Word16(b[8], b[9]), Word16(b[10], b[11]),
           Word32(b[12], b[13], b[14], b[15]), Word16(b[16], b[17]), Word16(b[18], b[19]), Word32(b[20], b[21], b[22], b[23]))
  }

  lemma Word16Bytes(lo: bv8, hi: bv8)
    ensures LE16(Word16(lo, hi)) == [lo, hi]
  {}

  lemma Word32Bytes(b0: bv8, b1: bv8, b2: bv8, b3: bv8)
    ensures LE32(Word32(b0, b1, b2, b3)) == [b0, b1, b2, b3]
  {}

  lemma InPieces<T>(b: seq<T>, s0: seq<T>, s6: seq<T>, s8: seq<T>, s10: seq<T>, s12: seq<T>, s16: seq<T>, s18: seq<T>, s20: seq<T>)
    requires |b| == RECORD_LEN
    requires s0 == [b[0], b[1], b[2], b[3]] && s12 == [b[12], b[13], b[14], b[15]] && s20 == [b[20], b[21], b[22], b[23]]
    requires s6 == [b[6], b[7]] && s8 == [b[8], b[9]] && s10 == [b[10], b[11]] && s16 == [b[16], b[17]] && s18 == [b[18], b[19]]
    ensures (s0 + [b[4], b[5]] + s6 + s8 + s10 + s12 + s16 + s18) + s20 == b
  {}

  /** Every 24 bytes are a record, and the record lies in memory as those bytes. */
  lemma BytesOfFromBytes(b: seq<bv8>)
    requires |b| == RECORD_LEN
    ensures Bytes(FromBytes(b)) == b
  {
    var r := FromBytes(b);
    Word32Bytes(b[0], b[1], b[2], b[3]);
    Word16Bytes(b[6], b[7]);
    Word16Bytes(b[8], b[9]);
    Word16Bytes(b[10], b[11]);
    Word32Bytes(b[12], b[13], b[14], b[15]);
    Word16Bytes(b[16], b[17]);
    Word16Bytes(b[18], b[19]);
    Word32Bytes(b[20], b[21], b[22], b[23]);
    InPieces(b, LE32(r.magic), LE16(r.tx), LE16(r.rx), LE16(r.pad), LE32(r.refMm), LE16(r.residual), LE16(r.pad2), LE32(r.crc));
  }

  function Finalized(r: Record): Record {
    var t := r.(magic := MAGIC, version := VERSION, pad := 0, pad2 := 0);
    t.(crc := Crc(Covered(t)))
  }

  predicate Valid(r: Record, phy: bv8) {
    r.magic == MAGIC && r.version == VERSION && r.phy == phy && r.crc == Crc(Covered(r))
  }

  class CalRecord {
    var r: Record

    method CrcOfCovered() returns (crc: bv32)
      ensures crc == Crc(Covered(r))
    {
      var raw := Covered(r);
      var data := new bv8[CRC_LEN](i requires 0 <= i < CRC_LEN => raw[i]);
      assert data[..CRC_LEN] == raw;
      crc := Compute(data, CRC_LEN);
    }

    method Finalize()
      modifies this
      ensures r == Finalized(old(r))
    {
      r := r.(magic := MAGIC, version := VERSION, pad := 0, pad2 := 0);
      var crc := CrcOfCovered();
      r := r.(crc := crc);
    }

    method IsValid(phy: bv8) returns (ok: bool)
      ensures ok == Valid(r, phy)
    {
      if r.magic != MAGIC || r.version != VERSION || r.phy != phy { return false; }
      var crc := CrcOfCovered();
      ok := r.crc == crc;
    }
  }

  /** A finalized record validates for its own radio option and no other. */
  lemma FinalizedIsValid(r: Record, phy: bv8)
    ensures Valid(Finalized(r), phy) <==> phy == r.phy
  {}

  /** Whatever happens to four consecutive bytes of a finalized record, the checksum included,
      it no longer validates for any radio option. */
  lemma CorruptionIsRejected(r: Record, raw: seq<bv8>, i: nat, phy: bv8)
    requires BurstAt(Bytes(Finalized(r)), raw, i)
    ensures !Valid(FromBytes(raw), phy)
  {
    var f, g := Finalized(r), FromBytes(raw);
    BytesOfFromBytes(raw);
    ByteStepInjective();
    ByteStepSeparates();
    BurstChangesFeed(ByteStep, ONES, Bytes(f), Bytes(g), i);
    ResidueMeansValid(Covered(f), f.crc);
    ResidueMeansValid(Covered(g), g.crc);
    assert f.crc == Crc(Covered(f));
  }
}
