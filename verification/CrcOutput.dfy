/**
 Which coefficient of the remainder polynomial each bit of a finished CRC is, for all four settings of
 the reflections, and what a calculation that goes on from a finished CRC starts with.
 */
module CrcOutput {
  import opened CrcBits
  import opened Crc
  import opened CrcParts
  import opened CrcPoly

  /** The exponent that a bit of the finished CRC stands for: reflected output has the highest one lowest. */
  function Place(p: Params, i: nat): (e: nat)
    requires i < p.width
    ensures e < p.width
  {
    if p.reflectOut then p.width - 1 - i else i
  }

  /** The exclusive-or comes last and in the order of the finished CRC; nothing is set above the width. */
  predicate Spells(p: Params, crc: Bits, v: Polynomial, k: nat)
    requires p.Valid() && |crc| == p.digits
  {
    && (forall i :: 0 <= i < p.width ==> crc[i] == ((Place(p, i) + k in v) != p.xorOut[i]))
    && Fits(crc, p.width)
  }

  lemma FinalizeSpells(p: Params, r: Bits)
    requires p.Valid() && |r| == p.digits
    ensures Spells(p, Finalize(p, r), Value(p, r), 0)
  {
    var crc := Finalize(p, r);
    forall i | 0 <= i < p.width ensures crc[i] == ((Place(p, i) + 0 in Value(p, r)) != p.xorOut[i]) {
      ValueAt(p, r, Place(p, i));
    }
  }

  /** Where an exponent stands in a remainder. */
  lemma ValueAt(p: Params, r: Bits, e: nat)
    requires p.Valid() && |r| == p.digits && e < p.width
    ensures e in Value(p, r) <==> r[if p.reflectIn then p.width - 1 - e else e]
  {
    assert FromTop(r, p.width, e) == r[p.width - 1 - e];
  }

  lemma RegisterAt(p: Params, x: Bits, e: nat)
    requires p.Valid() && |x| == p.digits && e < p.width
    ensures e + Offset(p) in Register(p, x) <==> e in Value(p, Shr(x, Lift(p)))
  {
    ValueAt(p, Shr(x, Lift(p)), e);
    assert p.reflectIn ==> FromTop(x, p.digits, e + Offset(p)) == x[p.width - 1 - e];
  }

  /** Two polynomials that spell the same CRC are equal below the width. */
  lemma SpelledOnce(p: Params, crc: Bits, v: Polynomial, w: Polynomial)
    requires p.Valid() && |crc| == p.digits && Spells(p, crc, v, 0) && Spells(p, crc, w, 0)
    requires (forall e :: e in v ==> e < p.width) && (forall e :: e in w ==> e < p.width)
    ensures v == w
  {
    forall e: nat | e < p.width ensures e in v <==> e in w {
      assert Place(p, Place(p, e)) == e;
      assert crc[Place(p, e)] == ((Place(p, Place(p, e)) + 0 in v) != p.xorOut[Place(p, e)]);
    }
  }

  /**
   The CRC of any data. Before the exclusive-or its bits are the coefficients, in the order that
   `reflectOut` says, of the only polynomial of lower degree than the generator that is congruent to the
   message times x to the width plus the initial value times x to the number of message bits.
   */
  lemma CrcIs(p: Params, data: seq<Byte>, v: Polynomial)
    requires p.Valid() && (p.reflectIn ==> Fits(p.init, p.width)) && (forall e :: e in v ==> e < p.width)
    ensures Congruent(v, Add(Up(Value(p, p.init), CHAR_BIT * |data|), Up(Message(p, data), p.width)), Generator(p))
            <==> Spells(p, Whole(p, data), v, 0)
  {
    hide Congruent, Message, Generator, Up, Add, Value, Spells, Finalize, Remainder;
    RemainderIsUnique(p, data, p.init, v);
    SpellsIff(p, Remainder(p, data, p.init), v);
  }

  lemma SpellsIff(p: Params, r: Bits, v: Polynomial)
    requires p.Valid() && |r| == p.digits && (forall e :: e in v ==> e < p.width)
    ensures Spells(p, Finalize(p, r), v, 0) <==> v == Value(p, r)
  {
    hide Spells, Finalize, Value;
    FinalizeSpells(p, r);
    if Spells(p, Finalize(p, r), v, 0) {
      SpelledOnce(p, Finalize(p, r), v, Value(p, r));
    }
  }

  /** The same for any initial value: the CRC is the top of the register that is divided. */
  lemma CrcOfRegister(p: Params, data: seq<Byte>, v: Polynomial)
    requires p.Valid() && (forall e :: e in v ==> e < p.width + Offset(p))
    requires var r := Register(p, Shl(p.init, Lift(p)));
             Congruent(v, Add(Up(r, CHAR_BIT * |data|), Up(Message(p, data), p.width + Offset(p))),
                       Up(Generator(p), Offset(p)))
    ensures Spells(p, Whole(p, data), v, Offset(p))
  {
    hide Congruent, Message, Generator, Up, Add, Register, Spells, Finalize, Bytes, Shl, Shr;
    RegisterIsUnique(p, data, Shl(p.init, Lift(p)), v);
    TopSpells(p, Bytes(p, Shl(p.init, Lift(p)), data));
  }

  lemma TopSpells(p: Params, x: Bits)
    requires p.Valid() && |x| == p.digits
    ensures Spells(p, Finalize(p, Shr(x, Lift(p))), Register(p, x), Offset(p))
  {
    hide Value, Register, Finalize, Shr, Offset;
    var r := Shr(x, Lift(p));
    FinalizeSpells(p, r);
    forall i | 0 <= i < p.width
      ensures Place(p, i) + Offset(p) in Register(p, x) <==> Place(p, i) + 0 in Value(p, r)
    {
      RegisterAt(p, x, Place(p, i));
    }
  }

  /** A finished CRC is taken back as the polynomial that it spells. */
  lemma UndoTakesBack(p: Params, crc: Bits, e: nat)
    requires p.Valid() && |crc| == p.digits && e < p.width
    ensures e in Value(p, UndoFinalize(p, crc)) <==> crc[Place(p, e)] != p.xorOut[Place(p, e)]
  {
    ValueAt(p, UndoFinalize(p, crc), e);
  }

  lemma UndoIsSpelled(p: Params, crc: Bits, u: Polynomial)
    requires p.Valid() && |crc| == p.digits && (forall e :: e in u ==> e < p.width) && Spells(p, crc, u, 0)
    ensures u == Value(p, UndoFinalize(p, crc))
  {
    hide Value, UndoFinalize;
    var w := Value(p, UndoFinalize(p, crc));
    forall e: nat | e < p.width ensures e in u <==> e in w {
      UndoTakesBack(p, crc, e);
      assert crc[Place(p, e)] == ((Place(p, Place(p, e)) + 0 in u) != p.xorOut[Place(p, e)]);
    }
  }

  lemma UndoFits(p: Params, crc: Bits)
    requires p.Valid() && |crc| == p.digits && (p.reflectIn && p.reflectOut ==> Fits(p.xorOut, p.width))
    ensures p.reflectIn ==> Fits(UndoFinalize(p, crc), p.width)
  {
  }

  /**
   Going on from a CRC that spells the polynomial `u` gives the CRC that spells the remainder of the new
   data with `u` in front.
   */
  lemma MoreIs(p: Params, data: seq<Byte>, crc: Bits, u: Polynomial, v: Polynomial)
    requires p.Valid() && |crc| == p.digits && (p.reflectIn && p.reflectOut ==> Fits(p.xorOut, p.width))
    requires (forall e :: e in u ==> e < p.width) && Spells(p, crc, u, 0) && (forall e :: e in v ==> e < p.width)
    ensures Congruent(v, Add(Up(u, CHAR_BIT * |data|), Up(Message(p, data), p.width)), Generator(p))
            <==> Spells(p, More(p, data, crc), v, 0)
  {
    hide Congruent, Message, Generator, Up, Add, Value, Spells, Finalize, Remainder, UndoFinalize;
    var r := UndoFinalize(p, crc);
    UndoFits(p, crc);
    UndoIsSpelled(p, crc, u);
    RemainderIsUnique(p, data, r, v);
    SpellsIff(p, Remainder(p, data, r), v);
  }

  /** Without a final exclusive-or, reflecting the output reverses the CRC. */
  lemma ReflectOutReverses(p: Params, data: seq<Byte>)
    requires p.Valid() && p.xorOut == Zero(p.digits)
    ensures Whole(p.(reflectOut := !p.reflectOut), data) == Reversed(Whole(p, data), p.width)
  {
    hide Remainder, Value;
    var q := p.(reflectOut := !p.reflectOut);
    var r := Remainder(p, data, p.init);
    SameRemainder(p, q, data, p.init);
    FinalizeSpells(p, r);
    FinalizeSpells(q, r);
    SameValue(p, q, r);
    var a, b := Whole(p, data), Whole(q, data);
    forall i | 0 <= i < p.width ensures b[i] == a[p.width - 1 - i] {
      assert Place(q, i) == Place(p, p.width - 1 - i);
    }
    assert b == Reversed(a, p.width);
  }

  lemma SameValue(p: Params, q: Params, r: Bits)
    requires p.Valid() && |r| == p.digits && q == p.(reflectOut := !p.reflectOut)
    ensures Value(q, r) == Value(p, r)
  {
  }

  /** The division does not look at the reflection of the output. */
  lemma SameRemainder(p: Params, q: Params, data: seq<Byte>, r: Bits)
    requires p.Valid() && |r| == p.digits && q == p.(reflectOut := !p.reflectOut)
    ensures Remainder(q, data, r) == Remainder(p, data, r)
  {
    SameBytes(p, q, Shl(r, Lift(p)), data);
  }

  lemma {:induction false} SameBytes(p: Params, q: Params, r: Bits, data: seq<Byte>)
    requires p.Valid() && |r| == p.digits && q == p.(reflectOut := !p.reflectOut)
    ensures Bytes(q, r, data) == Bytes(p, r, data)
  {
    hide BitStep;
    if data != [] {
      SameBytes(p, q, r, data[..|data| - 1]);
      var x := Xor(Bytes(p, r, data[..|data| - 1]), Shl(Widen(data[|data| - 1], p.digits), Lane(p)));
      SameSteps(p, q, x, CHAR_BIT);
    }
  }

  lemma {:induction false} SameSteps(p: Params, q: Params, r: Bits, k: nat)
    requires p.Valid() && |r| == p.digits && q == p.(reflectOut := !p.reflectOut)
    ensures BitSteps(q, r, k) == BitSteps(p, r, k)
  {
    if k > 0 {
      SameSteps(p, q, r, k - 1);
      hide Xor, Shr, Shl;
    }
  }
}
