/**
 The loops of the CRC engine, proved against the bitwise division.
 */
module CrcEngine {
  import opened CrcBits
  import opened Crc

  /** Division bit by bit: one outer iteration per byte, one inner iteration per bit. */
  method DivideBits(p: Params, data: seq<Byte>, start: Bits) returns (remainder: Bits)
    requires p.Valid() && |start| == p.digits
    ensures remainder == Remainder(p, data, start)
  {
    var polynomial;
    polynomial, remainder := SetUp(p, start);
    hide Xor, Shl, Shr, Widen, Poly, Reversed;
    for i := 0 to |data|
      invariant |remainder| == p.digits && remainder == Bytes(p, Shl(start, Lift(p)), data[..i])
    {
      remainder := DivideByte(p, polynomial, remainder, data[i]);
      assert data[..i + 1][..i] == data[..i];
    }
    assert data[..|data|] == data;
    if !p.reflectIn && p.width < CHAR_BIT {
      remainder := Shr(remainder, CHAR_BIT - p.width);
    } else {
      NotShifted(remainder);
    }
  }

  lemma NotShifted(a: Bits)
    ensures Shr(a, 0) == a && Shl(a, 0) == a
  {
  }

  /** The polynomial and the register as the loops use them. */
  method SetUp(p: Params, start: Bits) returns (polynomial: Bits, register: Bits)
    requires p.Valid() && |start| == p.digits
    ensures polynomial == Poly(p) && register == Shl(start, Lift(p))
  {
    polynomial, register := p.poly, start;
    NotShifted(start);
    NotShifted(p.poly);
    if p.reflectIn {
      polynomial := Reflect(p.poly, p.width);
    } else if p.width < CHAR_BIT {
      polynomial := Shl(p.poly, CHAR_BIT - p.width);
      register := Shl(start, CHAR_BIT - p.width);
    }
  }

  method DivideByte(p: Params, polynomial: Bits, start: Bits, b: Byte) returns (register: Bits)
    requires p.Valid() && |start| == p.digits && polynomial == Poly(p)
    ensures register == ByteStep(p, start, b)
  {
    var lane := if Wide(p) then p.width - CHAR_BIT else 0;
    register := Xor(start, Shl(Widen(b, p.digits), lane));
    hide Xor, Shl, Shr, Widen, Poly;
    ghost var first := register;
    for j := 0 to CHAR_BIT
      invariant |register| == p.digits && register == BitSteps(p, first, j)
    {
      if p.reflectIn {
        register := if register[0] then Xor(Shr(register, 1), polynomial) else Shr(register, 1);
      } else {
        var top := if p.width >= CHAR_BIT then p.width - 1 else CHAR_BIT - 1;
        register := if register[top] then Xor(Shl(register, 1), polynomial) else Shl(register, 1);
      }
    }
  }

  class Table {
    const params: Params
    const entries: array<Bits>

    ghost predicate Valid()
      reads entries
    {
      && params.Valid() && entries.Length == 256
      && forall n :: 0 <= n < 256 ==> entries[n] == Entry(params, ByteOf(n))
    }

    constructor (p: Params)
      requires p.Valid()
      ensures Valid() && params == p && fresh(entries)
    {
      params := p;
      entries := new Bits[256];
      new;
      for n := 0 to 256
        invariant forall m :: 0 <= m < n ==> entries[m] == Entry(p, ByteOf(m))
      {
        var byte := ByteOf(n);
        var crc := DivideBits(p, [byte], Zero(p.digits));
        crc := Mask(crc, p.width);
        if !p.reflectIn && p.width < CHAR_BIT {
          crc := Shl(crc, CHAR_BIT - p.width);
        } else {
          assert Shl(crc, 0) == crc;
        }
        entries[n] := crc;
      }
    }

    /** Look-up by byte. */
    method At(b: Byte) returns (r: Bits)
      requires Valid()
      ensures r == Entry(params, b)
    {
      ByteOfIndex(b);
      r := entries[Index(b)];
    }

    method LookUp(register: Bits, b: Byte) returns (r: Bits)
      requires Valid() && |register| == params.digits
      ensures r == TableStep(params, register, b)
    {
      var p, wide := params, Widen(b, params.digits);
      NotShifted(register);
      if p.reflectIn {
        var entry := At(ToByte(Xor(register, wide)));
        r := Xor(Shr(register, CHAR_BIT), entry);
      } else if p.width >= CHAR_BIT {
        var entry := At(ToByte(Xor(Shr(register, p.width - CHAR_BIT), wide)));
        r := Xor(Shl(register, CHAR_BIT), entry);
      } else {
        r := At(ToByte(Xor(register, wide)));
      }
    }

    /** Division a byte at a time; its result carries the remainder of the bitwise division. */
    method DivideBytes(data: seq<Byte>, start: Bits) returns (remainder: Bits)
      requires Valid() && |start| == params.digits
      ensures |remainder| == params.digits
      ensures Agree(remainder, Remainder(params, data, start), params.width)
      ensures Finalize(params, remainder) == Finalize(params, Remainder(params, data, start))
    {
      var p := params;
      remainder := start;
      if !p.reflectIn && p.width < CHAR_BIT {
        remainder := Shl(start, CHAR_BIT - p.width);
      } else {
        NotShifted(start);
      }
      hide Shl, Shr, TableStep;
      for i := 0 to |data|
        invariant |remainder| == p.digits && remainder == TableBytes(p, Shl(start, Lift(p)), data[..i])
      {
        assert data[..i + 1][..i] == data[..i];
        remainder := LookUp(remainder, data[i]);
      }
      assert data[..|data|] == data;
      if !p.reflectIn && p.width < CHAR_BIT {
        remainder := Shr(remainder, CHAR_BIT - p.width);
      } else {
        NotShifted(remainder);
      }
      TableIsBitwise(p, data, start);
    }

    method Calculate(data: seq<Byte>) returns (crc: Bits)
      requires Valid()
      ensures crc == Whole(params, data)
    {
      var remainder := DivideBytes(data, params.init);
      crc := FinalizeCrc(params, remainder);
    }

    method CalculateMore(data: seq<Byte>, crc: Bits) returns (crc': Bits)
      requires Valid() && |crc| == params.digits
      ensures crc' == More(params, data, crc)
    {
      var remainder := UndoFinalizeCrc(params, crc);
      remainder := DivideBytes(data, remainder);
      crc' := FinalizeCrc(params, remainder);
    }
  }

  method FinalizeCrc(p: Params, remainder: Bits) returns (crc: Bits)
    requires p.Valid() && |remainder| == p.digits
    ensures crc == Finalize(p, remainder)
  {
    crc := remainder;
    if p.reflectIn != p.reflectOut {
      crc := Reflect(crc, p.width);
    }
    crc := Mask(Xor(crc, p.xorOut), p.width);
  }

  method UndoFinalizeCrc(p: Params, crc: Bits) returns (remainder: Bits)
    requires p.Valid() && |crc| == p.digits
    ensures remainder == UndoFinalize(p, crc)
  {
    remainder := Xor(Mask(crc, p.width), p.xorOut);
    if p.reflectIn != p.reflectOut {
      remainder := Reflect(remainder, p.width);
    }
  }

  method Calculate(p: Params, data: seq<Byte>) returns (crc: Bits)
    requires p.Valid()
    ensures crc == Whole(p, data)
  {
    var remainder := DivideBits(p, data, p.init);
    crc := FinalizeCrc(p, remainder);
  }

  method CalculateMore(p: Params, data: seq<Byte>, crc: Bits) returns (crc': Bits)
    requires p.Valid() && |crc| == p.digits
    ensures crc' == More(p, data, crc)
  {
    var remainder := UndoFinalizeCrc(p, crc);
    remainder := DivideBits(p, data, remainder);
    crc' := FinalizeCrc(p, remainder);
  }
}
