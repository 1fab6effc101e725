/**
 Multi-part calculations: when feeding data piecewise through UndoFinalize gives the CRC of the whole.
 */
module CrcParts {
  import opened CrcBits
  import opened Crc

  lemma {:induction false} BytesAppend(p: Params, r: Bits, d: seq<Byte>, e: seq<Byte>)
    requires p.Valid() && |r| == p.digits
    ensures Bytes(p, r, d + e) == Bytes(p, Bytes(p, r, d), e)
  {
    if e == [] {
      assert d + e == d;
    } else {
      BytesAppend(p, r, d, e[..|e| - 1]);
      assert (d + e)[..|d + e| - 1] == d + e[..|e| - 1];
    }
  }

  lemma {:induction false} BytesCongruent(p: Params, a: Bits, b: Bits, data: seq<Byte>)
    requires p.Valid() && |a| == |b| == p.digits && Agree(a, b, Span(p))
    ensures Agree(Bytes(p, a, data), Bytes(p, b, data), Span(p))
  {
    if data != [] {
      var d := data[..|data| - 1];
      BytesCongruent(p, a, b, d);
      ByteStepsAgree(p, Bytes(p, a, d), Bytes(p, b, d), data[|data| - 1]);
    }
  }

  /** A narrow remainder stays in the top bits of its byte. */
  lemma ClearBelow(p: Params, r: Bits, data: seq<Byte>)
    requires p.Valid() && |r| == p.digits
    ensures forall i :: 0 <= i < Lift(p) ==> !Bytes(p, Shl(r, Lift(p)), data)[i]
  {
    if Narrow(p) && data != [] {
      var x := Bytes(p, Shl(r, Lift(p)), data[..|data| - 1]);
      BelowOnlyShifted(p, Xor(x, Shl(Widen(data[|data| - 1], p.digits), Lane(p))), CHAR_BIT);
    }
  }

  /** Remainders compose, on the low bits. */
  lemma RemainderAppend(p: Params, r: Bits, d: seq<Byte>, e: seq<Byte>)
    requires p.Valid() && |r| == p.digits
    ensures Agree(Remainder(p, d + e, r), Remainder(p, e, Remainder(p, d, r)), p.width)
    ensures p.reflectIn ==> Remainder(p, d + e, r) == Remainder(p, e, Remainder(p, d, r))
  {
    var s := Lift(p);
    var x := Bytes(p, Shl(r, s), d);
    ClearBelow(p, r, d);
    BytesAppend(p, Shl(r, s), d, e);
    var y := Shl(Shr(x, s), s);
    assert Agree(x, y, Span(p));
    BytesCongruent(p, x, y, e);
    if p.reflectIn {
      assert x == y;
    }
  }

  /** Unreflected, the low bits of a remainder do not depend on the bits above the width. */
  lemma HighBitsIrrelevant(p: Params, a: Bits, b: Bits, data: seq<Byte>)
    requires p.Valid() && |a| == |b| == p.digits && !p.reflectIn && Agree(a, b, p.width)
    ensures Agree(Remainder(p, data, a), Remainder(p, data, b), p.width)
  {
    BytesCongruent(p, Shl(a, Lift(p)), Shl(b, Lift(p)), data);
  }

  /** Undoing the final step restores the low bits; above them only what the final exclusive-or holds there. */
  lemma UndoRestores(p: Params, r: Bits)
    requires p.Valid() && |r| == p.digits
    ensures Agree(UndoFinalize(p, Finalize(p, r)), r, p.width)
    ensures forall i :: p.width <= i < p.digits ==> UndoFinalize(p, Finalize(p, r))[i] == (!Mirrors(p) && p.xorOut[i])
  {
    var crc := Finalize(p, r);
    var x := Xor(Mask(crc, p.width), p.xorOut);
    if Mirrors(p) {
      assert forall i :: 0 <= i < p.width ==> crc[i] == (r[p.width - 1 - i] != p.xorOut[i]);
      assert forall i :: 0 <= i < p.width ==> x[i] == r[p.width - 1 - i];
    } else {
      assert forall i :: 0 <= i < p.width ==> crc[i] == (r[i] != p.xorOut[i]);
    }
  }

  /** Finalizing restores every CRC of the right width that was undone. */
  lemma FinalizeRestores(p: Params, crc: Bits)
    requires p.Valid() && |crc| == p.digits && Fits(crc, p.width)
    ensures Finalize(p, UndoFinalize(p, crc)) == crc
  {
    var x := Xor(Mask(crc, p.width), p.xorOut);
    if Mirrors(p) {
      ReversedTwice(x, p.width);
    }
  }

  lemma FinalizeInjective(p: Params, a: Bits, b: Bits)
    requires p.Valid() && |a| == |b| == p.digits && Finalize(p, a) == Finalize(p, b)
    ensures Agree(a, b, p.width)
  {
    UndoRestores(p, a);
    UndoRestores(p, b);
  }

  // ---------------------------------------------------------------------------------------
  // What becomes of the bits above the width when the input is reflected
  // ---------------------------------------------------------------------------------------

  function Zeros(k: nat): (r: seq<Byte>)
    ensures |r| == k
  {
    seq(k, _ => Zero(CHAR_BIT))
  }

  /** Only the bits at or above the width. */
  function High(p: Params, x: Bits): (r: Bits)
    ensures |r| == |x|
  {
    seq(|x|, i requires 0 <= i < |x| => p.width <= i && x[i])
  }

  /**
   The bits of a parameter above the width leave no trace: left alone in the register they never
   reach the CRC's own bits, at whichever byte one looks. (From `digits` bytes on none is left.)
   */
  predicate Traceless(p: Params, x: Bits)
    requires p.Valid() && |x| == p.digits
  {
    forall k :: 0 <= k <= p.digits ==> Agree(Bytes(p, High(p, x), Zeros(k)), Zero(p.digits), p.width)
  }

  lemma NoLift(p: Params, r: Bits, d: seq<Byte>)
    requires p.Valid() && p.reflectIn && |r| == p.digits
    ensures Remainder(p, d, r) == Bytes(p, r, d)
  {
    assert Shl(r, 0) == r && Shr(Bytes(p, r, d), 0) == Bytes(p, r, d);
  }

  /** Two remainders fed the same data differ as their difference does when fed zeros. */
  lemma {:induction false} DifferenceMoves(p: Params, x: Bits, y: Bits, d: seq<Byte>)
    requires p.Valid() && |x| == |y| == p.digits
    ensures Xor(Bytes(p, x, d), Bytes(p, y, d)) == Bytes(p, Xor(x, y), Zeros(|d|))
  {
    if d != [] {
      var e, b := d[..|d| - 1], d[|d| - 1];
      DifferenceMoves(p, x, y, e);
      assert Zeros(|d|)[..|d| - 1] == Zeros(|e|);
      DifferenceStep(p, Bytes(p, x, e), Bytes(p, y, e), b);
    }
  }

  lemma DifferenceStep(p: Params, x: Bits, y: Bits, b: Byte)
    requires p.Valid() && |x| == |y| == p.digits
    ensures Xor(ByteStep(p, x, b), ByteStep(p, y, b)) == ByteStep(p, Xor(x, y), Zero(CHAR_BIT))
  {
    var v, w := Shl(Widen(Zero(CHAR_BIT), p.digits), Lane(p)), Shl(Widen(b, p.digits), Lane(p));
    Linear(p, Xor(x, w), Xor(y, w), CHAR_BIT);
    assert Xor(Xor(x, w), Xor(y, w)) == Xor(Xor(x, y), v);
  }

  lemma {:induction false} ZeroStays(p: Params, k: nat)
    requires p.Valid()
    ensures Bytes(p, Zero(p.digits), Zeros(k)) == Zero(p.digits)
  {
    var z := Bytes(p, Zero(p.digits), Zeros(k));
    DifferenceMoves(p, Zero(p.digits), Zero(p.digits), Zeros(k));
    assert Xor(z, z) == Zero(p.digits) == Xor(Zero(p.digits), Zero(p.digits));
  }

  /** The bits above the width only move down, eight positions a byte. */
  lemma {:induction false} HighMoves(p: Params, x: Bits, d: seq<Byte>)
    requires p.Valid() && p.reflectIn && |x| == p.digits
    ensures High(p, Bytes(p, x, d)) == High(p, Shr(x, CHAR_BIT * |d|))
  {
    if d == [] {
      assert Shr(x, 0) == x;
    } else {
      var e, b := d[..|d| - 1], d[|d| - 1];
      HighMoves(p, x, e);
      var y, n := Bytes(p, x, e), CHAR_BIT * |e|;
      ReflectedStep(p, y, b);
      forall i | p.width <= i < p.digits
        ensures ByteStep(p, y, b)[i] == Shr(x, n + CHAR_BIT)[i]
      {
        if i + CHAR_BIT < p.digits {
          assert High(p, y)[i + CHAR_BIT] == High(p, Shr(x, n))[i + CHAR_BIT];
        }
      }
    }
  }

  /** While it leaves no trace, the register holds just the bits moved down so far. */
  lemma Moved(p: Params, x: Bits, k: nat)
    requires p.Valid() && p.reflectIn && |x| == p.digits
    requires Agree(Bytes(p, High(p, x), Zeros(k)), Zero(p.digits), p.width)
    ensures Bytes(p, High(p, x), Zeros(k)) == High(p, Shr(x, CHAR_BIT * k))
  {
    HighMoves(p, High(p, x), Zeros(k));
    var y := Bytes(p, High(p, x), Zeros(k));
    assert y == High(p, y);
    assert High(p, Shr(High(p, x), CHAR_BIT * k)) == High(p, Shr(x, CHAR_BIT * k));
  }

  /** No trace within `digits` bytes is no trace ever. */
  lemma NeverTraced(p: Params, x: Bits, k: nat)
    requires p.Valid() && p.reflectIn && |x| == p.digits && Traceless(p, x)
    ensures Agree(Bytes(p, High(p, x), Zeros(k)), Zero(p.digits), p.width)
  {
    if k > p.digits {
      var n := p.digits;
      assert High(p, Shr(x, CHAR_BIT * n)) == Zero(n);
      assert Zeros(n) + Zeros(k - n) == Zeros(k);
      hide High, Shr, Bytes, Zeros, Zero;
      Moved(p, x, n);
      BytesAppend(p, High(p, x), Zeros(n), Zeros(k - n));
      ZeroStays(p, k - n);
    }
  }

  /** What is traceless stays so after being moved down by whole bytes. */
  lemma TracelessMoved(p: Params, x: Bits, n: nat, k: nat)
    requires p.Valid() && p.reflectIn && |x| == p.digits && Traceless(p, x)
    ensures Agree(Bytes(p, High(p, Shr(x, CHAR_BIT * n)), Zeros(k)), Zero(p.digits), p.width)
  {
    assert Zeros(n) + Zeros(k) == Zeros(n + k);
    hide Bytes, Zeros, High, Shr, Agree, Traceless;
    NeverTraced(p, x, n);
    Moved(p, x, n);
    BytesAppend(p, High(p, x), Zeros(n), Zeros(k));
    NeverTraced(p, x, n + k);
  }

  // ---------------------------------------------------------------------------------------
  // Exactly when parts make the whole
  // ---------------------------------------------------------------------------------------

  /** Feeding the data in two parts gives the CRC of the whole. */
  predicate PartsAgree(p: Params, d: seq<Byte>, e: seq<Byte>)
    requires p.Valid()
  {
    More(p, e, Whole(p, d)) == Whole(p, d + e)
  }

  /** The bits of the final exclusive-or that undoing it puts above the width. */
  function Leftover(p: Params): (r: Bits)
    requires p.Valid()
    ensures |r| == p.digits
  {
    if Mirrors(p) then Zero(p.digits) else High(p, p.xorOut)
  }

  /** What undoing the final step gets wrong after `n` bytes. */
  function Error(p: Params, n: nat): (r: Bits)
    requires p.Valid()
    ensures |r| == p.digits
  {
    Xor(High(p, Shr(p.init, CHAR_BIT * n)), Leftover(p))
  }

  lemma ErrorIs(p: Params, d: seq<Byte>)
    requires p.Valid() && p.reflectIn
    ensures var x := Bytes(p, p.init, d); Xor(UndoFinalize(p, Finalize(p, x)), x) == Error(p, |d|)
  {
    var x := Bytes(p, p.init, d);
    UndoRestores(p, x);
    HighMoves(p, p.init, d);
    hide Bytes, UndoFinalize, Finalize, Shr;
    var y := UndoFinalize(p, Finalize(p, x));
    assert forall i :: 0 <= i < p.digits ==> High(p, x)[i] == High(p, Shr(p.init, CHAR_BIT * |d|))[i];
    assert forall i :: 0 <= i < p.digits ==> Xor(y, x)[i] == Error(p, |d|)[i];
  }

  lemma AgreeIsNoDifference(a: Bits, b: Bits, width: nat)
    requires |a| == |b|
    ensures Agree(a, b, width) <==> Agree(Xor(a, b), Zero(|a|), width)
  {
    assert forall i :: 0 <= i < |a| ==> Xor(a, b)[i] == (a[i] != b[i]);
  }

  /** Two parts agree exactly when the error, carried through the second part, leaves no trace. */
  lemma PartsAgreeIff(p: Params, d: seq<Byte>, e: seq<Byte>)
    requires p.Valid() && p.reflectIn
    ensures PartsAgree(p, d, e) <==> Agree(Bytes(p, Error(p, |d|), Zeros(|e|)), Zero(p.digits), p.width)
  {
    var x := Bytes(p, p.init, d);
    var y := UndoFinalize(p, Finalize(p, x));
    var a, b := Bytes(p, y, e), Bytes(p, x, e);
    NoLift(p, p.init, d);
    NoLift(p, p.init, d + e);
    NoLift(p, y, e);
    BytesAppend(p, p.init, d, e);
    ErrorIs(p, d);
    DifferenceMoves(p, y, x, e);
    AgreeIsNoDifference(a, b, p.width);
    if PartsAgree(p, d, e) {
      FinalizeInjective(p, a, b);
    } else if Agree(a, b, p.width) {
      FinalizeAgree(p, a, b);
    }
  }

  /** The parameters' bits above the width, as far as the engine sees them, leave no trace. */
  predicate InRange(p: Params)
    requires p.Valid()
  {
    Traceless(p, p.init) && (Mirrors(p) || Traceless(p, p.xorOut))
  }

  lemma TraceOfSum(p: Params, x: Bits, y: Bits, k: nat)
    requires p.Valid() && |x| == |y| == p.digits
    ensures Bytes(p, Xor(x, y), Zeros(k)) == Xor(Bytes(p, x, Zeros(k)), Bytes(p, y, Zeros(k)))
  {
    DifferenceMoves(p, x, y, Zeros(k));
  }

  lemma ReflectedParts(p: Params, d: seq<Byte>, e: seq<Byte>)
    requires p.Valid() && p.reflectIn && InRange(p)
    ensures PartsAgree(p, d, e)
  {
    TracelessMoved(p, p.init, |d|, |e|);
    if Mirrors(p) {
      ZeroStays(p, |e|);
    } else {
      NeverTraced(p, p.xorOut, |e|);
    }
    TraceOfSum(p, High(p, Shr(p.init, CHAR_BIT * |d|)), Leftover(p), |e|);
    PartsAgreeIff(p, d, e);
  }

  lemma PartsMakeWhole(p: Params, d: seq<Byte>, e: seq<Byte>)
    requires p.Valid() && (p.reflectIn ==> InRange(p))
    ensures PartsAgree(p, d, e)
  {
    if p.reflectIn {
      ReflectedParts(p, d, e);
    } else {
      var x := Remainder(p, d, p.init);
      var y := UndoFinalize(p, Finalize(p, x));
      UndoRestores(p, x);
      HighBitsIrrelevant(p, y, x, e);
      RemainderAppend(p, p.init, d, e);
      FinalizeAgree(p, Remainder(p, e, y), Remainder(p, d + e, p.init));
    }
  }

  /** After enough bytes only the leftover of the final exclusive-or remains of the error. */
  lemma ErrorAtEnd(p: Params)
    requires p.Valid()
    ensures Error(p, p.digits) == Leftover(p)
  {
  }

  lemma AllPartsNeedRange(p: Params, k: nat)
    requires p.Valid() && p.reflectIn
    requires forall d, e :: PartsAgree(p, d, e)
    ensures Agree(Bytes(p, High(p, p.init), Zeros(k)), Zero(p.digits), p.width)
    ensures Agree(Bytes(p, Leftover(p), Zeros(k)), Zero(p.digits), p.width)
  {
    assert PartsAgree(p, Zeros(p.digits), Zeros(k)) && PartsAgree(p, [], Zeros(k));
    PartsAgreeIff(p, Zeros(p.digits), Zeros(k));
    ErrorAtEnd(p);
    PartsAgreeIff(p, [], Zeros(k));
    assert Shr(p.init, 0) == p.init;
    TraceOfSum(p, High(p, p.init), Leftover(p), k);
  }

  /** Two parts agree for all data exactly when a reflected CRC has parameters in range. */
  lemma TwoPartsIff(p: Params)
    requires p.Valid()
    ensures (forall d, e :: PartsAgree(p, d, e)) <==> (p.reflectIn ==> InRange(p))
  {
    if p.reflectIn ==> InRange(p) {
      forall d, e ensures PartsAgree(p, d, e) {
        PartsMakeWhole(p, d, e);
      }
    } else if forall d, e :: PartsAgree(p, d, e) {
      forall k | 0 <= k <= p.digits
        ensures Agree(Bytes(p, High(p, p.init), Zeros(k)), Zero(p.digits), p.width)
        ensures Agree(Bytes(p, Leftover(p), Zeros(k)), Zero(p.digits), p.width)
      {
        AllPartsNeedRange(p, k);
      }
      assert Traceless(p, p.init);
    }
  }

  /** A first part, and any number of parts appended to it one after the other. */
  function InParts(p: Params, first: seq<Byte>, rest: seq<seq<Byte>>): (crc: Bits)
    requires p.Valid()
    ensures |crc| == p.digits
  {
    if rest == [] then Whole(p, first) else More(p, rest[|rest| - 1], InParts(p, first, rest[..|rest| - 1]))
  }

  function Joined(first: seq<Byte>, rest: seq<seq<Byte>>): (d: seq<Byte>) {
    if rest == [] then first else Joined(first, rest[..|rest| - 1]) + rest[|rest| - 1]
  }

  lemma {:induction false} AllPartsMakeWhole(p: Params, first: seq<Byte>, rest: seq<seq<Byte>>)
    requires p.Valid() && (p.reflectIn ==> InRange(p))
    ensures InParts(p, first, rest) == Whole(p, Joined(first, rest))
  {
    if rest != [] {
      AllPartsMakeWhole(p, first, rest[..|rest| - 1]);
      PartsMakeWhole(p, Joined(first, rest[..|rest| - 1]), rest[|rest| - 1]);
    }
  }

  /** Feeding any data in any number of parts gives the CRC of the whole. */
  ghost predicate AnyPartsAgree(p: Params)
    requires p.Valid()
  {
    forall first, rest :: InParts(p, first, rest) == Whole(p, Joined(first, rest))
  }

  lemma TwoParts(p: Params, d: seq<Byte>, e: seq<Byte>)
    requires p.Valid()
    ensures PartsAgree(p, d, e) <==> InParts(p, d, [e]) == Whole(p, Joined(d, [e]))
  {
    hide More, Whole;
    assert [e][..0] == [];
    assert InParts(p, d, [e]) == More(p, e, InParts(p, d, [])) && Joined(d, [e]) == Joined(d, []) + e;
  }

  /** Calculation in any number of parts works for all data exactly when a reflected CRC has parameters in range. */
  lemma PartsMakeWholeIff(p: Params)
    requires p.Valid()
    ensures AnyPartsAgree(p) <==> (p.reflectIn ==> InRange(p))
  {
    hide InRange, PartsAgree, More, Whole, InParts, Joined;
    if p.reflectIn ==> InRange(p) {
      forall first, rest ensures InParts(p, first, rest) == Whole(p, Joined(first, rest)) {
        AllPartsMakeWhole(p, first, rest);
      }
    } else if AnyPartsAgree(p) {
      forall d: seq<Byte>, e: seq<Byte> ensures PartsAgree(p, d, e) {
        TwoParts(p, d, e);
      }
      TwoPartsIff(p);
    }
  }

  /** For a CRC of a byte or more, leaving no trace means having no bit above the width at all. */
  lemma TracelessIsFitting(p: Params, x: Bits)
    requires p.Valid() && p.reflectIn && |x| == p.digits
    ensures Fits(x, p.width) ==> Traceless(p, x)
    ensures p.width >= CHAR_BIT && Traceless(p, x) ==> Fits(x, p.width)
  {
    if Fits(x, p.width) {
      assert High(p, x) == Zero(p.digits);
      forall k | 0 <= k <= p.digits ensures Agree(Bytes(p, High(p, x), Zeros(k)), Zero(p.digits), p.width) {
        ZeroStays(p, k);
      }
    } else if p.width >= CHAR_BIT && Traceless(p, x) {
      var q :| p.width <= q < p.digits && x[q];
      Traced(p, x, q, (q - p.width) / CHAR_BIT);
      assert false;
    }
  }

  lemma ZeroByte(p: Params, y: Bits)
    requires p.Valid() && |y| == p.digits
    ensures ByteStep(p, y, Zero(CHAR_BIT)) == BitSteps(p, y, CHAR_BIT)
  {
    hide BitSteps;
    assert Xor(y, Shl(Widen(Zero(CHAR_BIT), p.digits), Lane(p))) == y;
  }

  /** A bit just above the width falls into it with the next byte. */
  lemma FallsIn(p: Params, y: Bits, i: nat)
    requires p.Valid() && p.reflectIn && |y| == p.digits && p.width >= CHAR_BIT && Agree(y, Zero(p.digits), p.width)
    requires p.width <= i < p.digits && i < p.width + CHAR_BIT && y[i]
    ensures ByteStep(p, y, Zero(CHAR_BIT))[i - CHAR_BIT]
  {
    assert forall j :: 0 <= j < CHAR_BIT ==> y[j] == Zero(p.digits)[j];
    hide BitSteps, Xor, Shl, Widen, Agree;
    ZeroByte(p, y);
    OnlyShifted(p, y, CHAR_BIT);
  }

  lemma Traced(p: Params, x: Bits, q: nat, k: nat)
    requires p.Valid() && p.reflectIn && |x| == p.digits && p.width >= CHAR_BIT
    requires p.width + CHAR_BIT * k <= q < p.digits && q < p.width + CHAR_BIT * (k + 1) && x[q]
    ensures !Traceless(p, x)
  {
    if Traceless(p, x) {
      var y, i := High(p, Shr(x, CHAR_BIT * k)), q - CHAR_BIT * k;
      NeverTraced(p, x, k);
      Moved(p, x, k);
      assert y[i];
      assert Zeros(k + 1)[..k] == Zeros(k);
      NeverTraced(p, x, k + 1);
      FallsIn(p, y, i);
      assert false;
    }
  }

  /** One set bit above the width of an 8-bit reflected CRC, and one zero byte tells the parts from the whole. */
  lemma PartsFail(poly: Bits) returns (p: Params)
    requires |poly| == 16
    ensures p == Params(16, 8, poly, Zero(16)[8 := true], Zero(16), true, true)
    ensures p.Valid() && !PartsAgree(p, [], [Zero(CHAR_BIT)])
  {
    p := Params(16, 8, poly, Zero(16)[8 := true], Zero(16), true, true);
    var z := Zero(CHAR_BIT);
    assert [z] == Zeros(1);
    PartsAgreeIff(p, [], [z]);
    assert Error(p, 0) == p.init;
    assert Zeros(1)[..0] == [];
    assert Bytes(p, p.init, Zeros(1)) == ByteStep(p, p.init, z);
    assert Xor(p.init, Shl(Widen(z, 16), 0)) == p.init;
    OnlyShifted(p, p.init, CHAR_BIT);
    assert Shr(p.init, CHAR_BIT)[0];
  }
}
