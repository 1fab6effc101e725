/**
 Three named CRCs against the documents that define them.
 */
module CrcStandards {
  import opened CrcBits
  import opened Crc
  import opened CrcParts

  /** An integer of `digits` bits with ones exactly at the given exponents. */
  function Ones(exponents: set<nat>, digits: nat): (r: Bits)
    ensures |r| == digits
  {
    seq(digits, i requires 0 <= i < digits => i in exponents)
  }

  function AllOnes(digits: nat): (r: Bits)
    ensures |r| == digits
  {
    seq(digits, _ => true)
  }

  // 0x04C11DB7
  const POLY_32: Bits := Ones({0, 1, 2, 4, 5, 7, 8, 10, 11, 12, 16, 22, 23, 26}, 32)

  const CRC_32: Params := Params(32, 32, POLY_32, AllOnes(32), AllOnes(32), true, true)

  // 0x864CFB and 0xB704CE
  const POLY_24: Bits := Ones({0, 1, 3, 4, 5, 6, 7, 10, 11, 14, 17, 18, 23}, 32)
  const INIT_24: Bits := Ones({1, 2, 3, 6, 7, 10, 16, 17, 18, 20, 21, 23}, 32)

  const CRC_24: Params := Params(32, 24, POLY_24, INIT_24, Zero(32), false, false)

  // ---------------------------------------------------------------------------------------
  // Section 8 of RFC 1952
  // ---------------------------------------------------------------------------------------

  // 0xEDB88320
  const GZIP_POLY: Bits := Ones({5, 8, 9, 15, 19, 20, 21, 23, 24, 26, 27, 29, 30, 31}, 32)

  function GzipShift(c: Bits, k: nat): (r: Bits)
    requires |c| == 32
    ensures |r| == 32
  {
    if k == 0 then c
    else
      var x := GzipShift(c, k - 1);
      if x[0] then Xor(GZIP_POLY, Shr(x, 1)) else Shr(x, 1)
  }

  function GzipUpdate(c: Bits, data: seq<Byte>): (r: Bits)
    requires |c| == 32
    ensures |r| == 32
  {
    if data == [] then c
    else
      var x := GzipUpdate(c, data[..|data| - 1]);
      Xor(GzipShift(Widen(ToByte(Xor(x, Widen(data[|data| - 1], 32))), 32), 8), Shr(x, 8))
  }

  /** The value stored in a gzip trailer. */
  function GzipCrc(data: seq<Byte>): (r: Bits) {
    Xor(GzipUpdate(Xor(Zero(32), AllOnes(32)), data), AllOnes(32))
  }

  lemma GzipPoly()
    ensures Poly(CRC_32) == GZIP_POLY
  {
    var r := Reversed(POLY_32, 32);
    forall i | 0 <= i < 32 ensures r[i] == GZIP_POLY[i] {
      assert r[i] == POLY_32[31 - i];
    }
  }

  lemma {:induction false} GzipShiftIs(c: Bits, k: nat)
    requires |c| == 32
    ensures GzipShift(c, k) == BitSteps(CRC_32, c, k)
  {
    GzipPoly();
    if k > 0 {
      GzipShiftIs(c, k - 1);
      var x := Shr(GzipShift(c, k - 1), 1);
      assert Xor(GZIP_POLY, x) == Xor(x, GZIP_POLY);
    }
  }

  lemma GzipStepIs(r: Bits, b: Byte)
    requires |r| == 32
    ensures Xor(GzipShift(Widen(ToByte(Xor(r, Widen(b, 32))), 32), 8), Shr(r, 8)) == ByteStep(CRC_32, r, b)
  {
    var p := CRC_32;
    ReflectedStep(p, r, b);
    assert Shr(r, 0) == r;
    var x := ToByte(Xor(r, Widen(b, 32)));
    var lo := Widen(x, 32);
    GzipShiftIs(lo, 8);
    OneByte(p, x);
    assert Shl(lo, 0) == lo;
    var e := BitSteps(p, lo, 8);
    assert Shl(Mask(Shr(e, 0), 32), 0) == e;
    assert Entry(p, x) == e;
    assert Xor(e, Shr(r, 8)) == Xor(Shr(r, 8), e);
  }

  lemma {:induction false} GzipUpdateIs(c: Bits, data: seq<Byte>)
    requires |c| == 32
    ensures GzipUpdate(c, data) == Bytes(CRC_32, c, data)
  {
    if data != [] {
      var d := data[..|data| - 1];
      GzipUpdateIs(c, d);
      GzipStepIs(Bytes(CRC_32, c, d), data[|data| - 1]);
    }
  }

  /** CRC-32 is the CRC of gzip files. */
  lemma Crc32IsGzip(data: seq<Byte>)
    ensures Whole(CRC_32, data) == GzipCrc(data)
  {
    var p := CRC_32;
    assert Xor(Zero(32), AllOnes(32)) == AllOnes(32);
    GzipUpdateIs(AllOnes(32), data);
    NoLift(p, p.init, data);
    var r := Bytes(p, p.init, data);
    assert Mask(Xor(r, p.xorOut), 32) == Xor(r, p.xorOut);
  }

  // ---------------------------------------------------------------------------------------
  // Section 6.1 of RFC 4880
  // ---------------------------------------------------------------------------------------

  // 0x1864CFB
  const PGP_POLY: Bits := Ones({0, 1, 3, 4, 5, 6, 7, 10, 11, 14, 17, 18, 23, 24}, 32)

  function PgpShift(c: Bits, k: nat): (r: Bits)
    requires |c| == 32
    ensures |r| == 32
  {
    if k == 0 then c
    else
      var x := Shl(PgpShift(c, k - 1), 1);
      if x[24] then Xor(x, PGP_POLY) else x
  }

  function PgpUpdate(data: seq<Byte>): (r: Bits)
    ensures |r| == 32
  {
    if data == [] then INIT_24
    else PgpShift(Xor(PgpUpdate(data[..|data| - 1]), Shl(Widen(data[|data| - 1], 32), 16)), 8)
  }

  /** The checksum of an armored OpenPGP message. */
  function PgpCrc(data: seq<Byte>): (r: Bits) {
    Mask(PgpUpdate(data), 24)
  }

  lemma {:induction false} PgpShiftAgrees(a: Bits, b: Bits, k: nat)
    requires |a| == |b| == 32 && Agree(a, b, 24)
    ensures Agree(PgpShift(a, k), BitSteps(CRC_24, b, k), 24)
  {
    if k > 0 {
      PgpShiftAgrees(a, b, k - 1);
      assert Shl(POLY_24, 0) == POLY_24;
      assert Agree(PGP_POLY, POLY_24, 24);
    }
  }

  lemma {:induction false} PgpUpdateAgrees(data: seq<Byte>)
    ensures Agree(PgpUpdate(data), Bytes(CRC_24, INIT_24, data), 24)
  {
    if data != [] {
      var d, w := data[..|data| - 1], Shl(Widen(data[|data| - 1], 32), 16);
      PgpUpdateAgrees(d);
      PgpShiftAgrees(Xor(PgpUpdate(d), w), Xor(Bytes(CRC_24, INIT_24, d), w), 8);
    }
  }

  /** CRC-24 is the checksum of OpenPGP. */
  lemma Crc24IsPgp(data: seq<Byte>)
    ensures Whole(CRC_24, data) == PgpCrc(data)
  {
    PgpUpdateAgrees(data);
    var r := Bytes(CRC_24, INIT_24, data);
    assert Shl(INIT_24, 0) == INIT_24 && Shr(r, 0) == r;
    assert Xor(r, Zero(32)) == r;
  }

  // ---------------------------------------------------------------------------------------
  // Section 4.2.1 of 3GPP TS 25.212
  // ---------------------------------------------------------------------------------------

  // 0x80F
  const POLY_12: Bits := Ones({0, 1, 2, 3, 11}, 16)

  const CRC_12_UMTS: Params := Params(16, 12, POLY_12, Zero(16), Zero(16), false, true)

  /** The feedback register of D^12 + D^11 + D^3 + D^2 + D + 1 takes in one message bit. */
  function UmtsFeed(reg: Bits, bit: bool): (r: Bits)
    requires |reg| == 12
    ensures |r| == 12
  {
    var feedback := reg[11] != bit;
    seq(12, i requires 0 <= i < 12 => (i > 0 && reg[i - 1]) != (feedback && i in {0, 1, 2, 3, 11}))
  }

  function UmtsRegister(reg: Bits, message: seq<bool>): (r: Bits)
    requires |reg| == 12
    ensures |r| == 12
  {
    if message == [] then reg else UmtsFeed(UmtsRegister(reg, message[..|message| - 1]), message[|message| - 1])
  }

  /** The bits of the message, the highest one of each byte first. */
  function HighFirst(data: seq<Byte>): (bits: seq<bool>) {
    if data == [] then [] else HighFirst(data[..|data| - 1]) + ByteHighFirst(data[|data| - 1])
  }

  function ByteHighFirst(b: Byte): (bits: seq<bool>)
    ensures |bits| == 8
  {
    seq(8, i requires 0 <= i < 8 => b[7 - i])
  }

  /** The parity bits, that of the highest power first. */
  function UmtsParity(data: seq<Byte>): (bits: seq<bool>)
    ensures |bits| == 12
  {
    var reg := UmtsRegister(Zero(12), HighFirst(data));
    seq(12, i requires 0 <= i < 12 => reg[11 - i])
  }

  lemma {:induction false} UmtsAppend(reg: Bits, a: seq<bool>, b: seq<bool>)
    requires |reg| == 12
    ensures UmtsRegister(reg, a + b) == UmtsRegister(UmtsRegister(reg, a), b)
  {
    hide UmtsFeed;
    if b == [] {
      assert a + b == a;
    } else {
      UmtsAppend(reg, a, b[..|b| - 1]);
      assert (a + b)[..|a + b| - 1] == a + b[..|b| - 1];
    }
  }

  /** After `k` bits of a byte, the engine's register holds the feedback register and the rest of the byte on top. */
  predicate UmtsHolds(x: Bits, reg: Bits, b: Byte, k: nat)
    requires |x| == 16 && |reg| == 12
  {
    forall i :: 0 <= i < 12 ==> x[i] == (reg[i] != (i >= 4 + k && b[i - 4 - k]))
  }

  lemma UmtsBit(x: Bits, reg: Bits, b: Byte, k: nat)
    requires |x| == 16 && |reg| == 12 && k < 8 && UmtsHolds(x, reg, b, k)
    ensures UmtsHolds(BitStep(CRC_12_UMTS, x), UmtsFeed(reg, b[7 - k]), b, k + 1)
  {
    var y, next := BitStep(CRC_12_UMTS, x), UmtsFeed(reg, b[7 - k]);
    assert x[11] == (reg[11] != b[7 - k]);
    assert Poly(CRC_12_UMTS) == POLY_12;
    forall i | 0 <= i < 12 ensures y[i] == (next[i] != (i >= 5 + k && b[i - 5 - k])) {
      assert POLY_12[i] == (i in {0, 1, 2, 3, 11});
    }
  }

  lemma {:induction false} UmtsByte(x: Bits, reg: Bits, b: Byte, k: nat)
    requires |x| == 16 && |reg| == 12 && k <= 8 && UmtsHolds(x, reg, b, 0)
    ensures UmtsHolds(BitSteps(CRC_12_UMTS, x, k), UmtsRegister(reg, ByteHighFirst(b)[..k]), b, k)
  {
    hide UmtsHolds, BitStep, UmtsFeed;
    var bits := ByteHighFirst(b);
    if k > 0 {
      UmtsByte(x, reg, b, k - 1);
      assert bits[..k][..k - 1] == bits[..k - 1];
      UmtsBit(BitSteps(CRC_12_UMTS, x, k - 1), UmtsRegister(reg, bits[..k - 1]), b, k - 1);
    }
  }

  lemma {:induction false} UmtsBytes(data: seq<Byte>)
    ensures Bytes(CRC_12_UMTS, Zero(16), data)[..12] == UmtsRegister(Zero(12), HighFirst(data))
  {
    hide UmtsRegister, BitSteps;
    if data == [] {
      assert UmtsRegister(Zero(12), []) == Zero(12) by { UmtsEmpty(Zero(12)); }
    } else {
      var d, b := data[..|data| - 1], data[|data| - 1];
      UmtsBytes(d);
      var x, reg := Bytes(CRC_12_UMTS, Zero(16), d), UmtsRegister(Zero(12), HighFirst(d));
      UmtsAppend(Zero(12), HighFirst(d), ByteHighFirst(b));
      var y := Xor(x, Shl(Widen(b, 16), 4));
      assert UmtsHolds(y, reg, b, 0) by { UmtsEnters(x, b); }
      UmtsByte(y, reg, b, 8);
      assert ByteHighFirst(b)[..8] == ByteHighFirst(b);
    }
  }

  lemma UmtsEnters(x: Bits, b: Byte)
    requires |x| == 16
    ensures UmtsHolds(Xor(x, Shl(Widen(b, 16), 4)), x[..12], b, 0)
  {
    var y := Xor(x, Shl(Widen(b, 16), 4));
    forall i | 0 <= i < 12 ensures y[i] == (x[..12][i] != (i >= 4 && b[i - 4])) {
      assert i >= 4 ==> Shl(Widen(b, 16), 4)[i] == Widen(b, 16)[i - 4] == b[i - 4];
    }
  }

  lemma UmtsEmpty(reg: Bits)
    requires |reg| == 12
    ensures UmtsRegister(reg, []) == reg
  {
  }

  /** CRC-12 of UMTS: the parity bits in reverse, so that the lowest bit is that of the highest power. */
  lemma Crc12IsUmts(data: seq<Byte>)
    ensures Whole(CRC_12_UMTS, data)[..12] == UmtsParity(data) && Fits(Whole(CRC_12_UMTS, data), 12)
  {
    hide Bytes;
    UmtsBytes(data);
    assert Shl(Zero(16), 0) == Zero(16);
    var x := Bytes(CRC_12_UMTS, Zero(16), data);
    assert Shr(x, 0) == x;
    UmtsReversed(x, UmtsParity(data));
  }

  lemma UmtsReversed(x: Bits, parity: seq<bool>)
    requires |x| == 16 && |parity| == 12 && forall i :: 0 <= i < 12 ==> parity[i] == x[11 - i]
    ensures Finalize(CRC_12_UMTS, x)[..12] == parity && Fits(Finalize(CRC_12_UMTS, x), 12)
  {
    var crc := Finalize(CRC_12_UMTS, x);
    forall i | 0 <= i < 12 ensures crc[i] == parity[i] {
      assert Reversed(x, 12)[i] == x[11 - i] && !Zero(16)[i];
    }
  }
}
