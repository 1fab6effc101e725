/**
 The CRC engine: remainders computed bit by bit and by table look-up, final reflection and
 exclusive-or, and calculations in one or several parts.
 */
module Crc {
  import opened CrcBits

  /** `digits` is the number of bits of the integer type, `width` the number of bits of the CRC. */
  datatype Params = Params(digits: nat, width: nat, poly: Bits, init: Bits, xorOut: Bits, reflectIn: bool,
                           reflectOut: bool)
  {
    predicate Valid() {
      && 1 <= width <= digits && CHAR_BIT <= digits
      && |poly| == digits && |init| == digits && |xorOut| == digits
    }
  }

  // The three shapes of the engine: reflected input; otherwise width at least a byte, or less.
  // A narrow unreflected remainder is kept in the top bits of a byte.
  predicate Narrow(p: Params) { !p.reflectIn && p.width < CHAR_BIT }

  predicate Wide(p: Params) { !p.reflectIn && p.width >= CHAR_BIT }

  function Lift(p: Params): (s: nat) { if Narrow(p) then CHAR_BIT - p.width else 0 }

  function Lane(p: Params): (s: nat) { if Wide(p) then p.width - CHAR_BIT else 0 }

  function Top(p: Params): (t: nat)
    requires p.Valid()
    ensures CHAR_BIT - 1 <= t < p.digits
  {
    if p.width >= CHAR_BIT then p.width - 1 else CHAR_BIT - 1
  }

  function Poly(p: Params): (r: Bits)
    requires p.Valid()
    ensures |r| == p.digits
  {
    if p.reflectIn then Reversed(p.poly, p.width) else Shl(p.poly, Lift(p))
  }

  /** One step of long division, towards the low end for reflected input and the high end otherwise. */
  function BitStep(p: Params, r: Bits): (r': Bits)
    requires p.Valid() && |r| == p.digits
    ensures |r'| == p.digits
  {
    if p.reflectIn
    then if r[0] then Xor(Shr(r, 1), Poly(p)) else Shr(r, 1)
    else if r[Top(p)] then Xor(Shl(r, 1), Poly(p)) else Shl(r, 1)
  }

  function BitSteps(p: Params, r: Bits, k: nat): (r': Bits)
    requires p.Valid() && |r| == p.digits
    ensures |r'| == p.digits
  {
    if k == 0 then r else BitStep(p, BitSteps(p, r, k - 1))
  }

  function ByteStep(p: Params, r: Bits, b: Byte): (r': Bits)
    requires p.Valid() && |r| == p.digits
    ensures |r'| == p.digits
  {
    BitSteps(p, Xor(r, Shl(Widen(b, p.digits), Lane(p))), CHAR_BIT)
  }

  function Bytes(p: Params, r: Bits, data: seq<Byte>): (r': Bits)
    requires p.Valid() && |r| == p.digits
    ensures |r'| == p.digits
  {
    if data == [] then r else ByteStep(p, Bytes(p, r, data[..|data| - 1]), data[|data| - 1])
  }

  function Remainder(p: Params, data: seq<Byte>, r: Bits): (r': Bits)
    requires p.Valid() && |r| == p.digits
    ensures |r'| == p.digits
  {
    Shr(Bytes(p, Shl(r, Lift(p)), data), Lift(p))
  }

  /** What table look-up reads for a byte. */
  function Entry(p: Params, b: Byte): (r: Bits)
    requires p.Valid()
    ensures |r| == p.digits
  {
    Shl(Mask(Remainder(p, [b], Zero(p.digits)), p.width), Lift(p))
  }

  function TableStep(p: Params, r: Bits, b: Byte): (r': Bits)
    requires p.Valid() && |r| == p.digits
    ensures |r'| == p.digits
  {
    var x := ToByte(Xor(Shr(r, Lane(p)), Widen(b, p.digits)));
    if p.reflectIn then Xor(Shr(r, CHAR_BIT), Entry(p, x))
    else if Wide(p) then Xor(Shl(r, CHAR_BIT), Entry(p, x))
    else Entry(p, x)
  }

  function TableBytes(p: Params, r: Bits, data: seq<Byte>): (r': Bits)
    requires p.Valid() && |r| == p.digits
    ensures |r'| == p.digits
  {
    if data == [] then r else TableStep(p, TableBytes(p, r, data[..|data| - 1]), data[|data| - 1])
  }

  function TableRemainder(p: Params, data: seq<Byte>, r: Bits): (r': Bits)
    requires p.Valid() && |r| == p.digits
    ensures |r'| == p.digits
  {
    Shr(TableBytes(p, Shl(r, Lift(p)), data), Lift(p))
  }

  predicate Mirrors(p: Params) { p.reflectIn != p.reflectOut }

  function Finalize(p: Params, r: Bits): (crc: Bits)
    requires p.Valid() && |r| == p.digits
    ensures |crc| == p.digits
  {
    Mask(Xor(if Mirrors(p) then Reversed(r, p.width) else r, p.xorOut), p.width)
  }

  function UndoFinalize(p: Params, crc: Bits): (r: Bits)
    requires p.Valid() && |crc| == p.digits
    ensures |r| == p.digits
  {
    var x := Xor(Mask(crc, p.width), p.xorOut);
    if Mirrors(p) then Reversed(x, p.width) else x
  }

  /** The CRC of a byte string, and the CRC of more bytes after a given CRC. */
  function Whole(p: Params, data: seq<Byte>): (crc: Bits)
    requires p.Valid()
    ensures |crc| == p.digits
  {
    Finalize(p, Remainder(p, data, p.init))
  }

  function More(p: Params, data: seq<Byte>, crc: Bits): (crc': Bits)
    requires p.Valid() && |crc| == p.digits
    ensures |crc'| == p.digits
  {
    Finalize(p, Remainder(p, data, UndoFinalize(p, crc)))
  }

  // ---------------------------------------------------------------------------------------
  // Linearity
  // ---------------------------------------------------------------------------------------

  lemma {:induction false} Linear(p: Params, a: Bits, b: Bits, k: nat)
    requires p.Valid() && |a| == |b| == p.digits
    ensures BitSteps(p, Xor(a, b), k) == Xor(BitSteps(p, a, k), BitSteps(p, b, k))
  {
    hide BitStep, Xor;
    if k > 0 {
      var x, y, z := BitSteps(p, a, k - 1), BitSteps(p, b, k - 1), BitSteps(p, Xor(a, b), k - 1);
      assert z == Xor(x, y) by { Linear(p, a, b, k - 1); }
      assert BitStep(p, z) == Xor(BitStep(p, x), BitStep(p, y)) by { LinearStep(p, x, y); }
    }
  }

  lemma LinearStep(p: Params, a: Bits, b: Bits)
    requires p.Valid() && |a| == |b| == p.digits
    ensures BitStep(p, Xor(a, b)) == Xor(BitStep(p, a), BitStep(p, b))
  {
    if p.reflectIn {
      assert Shr(Xor(a, b), 1) == Xor(Shr(a, 1), Shr(b, 1));
    } else {
      assert Shl(Xor(a, b), 1) == Xor(Shl(a, 1), Shl(b, 1));
    }
  }

  /** Bits that do not reach the tested end within `k` steps are only shifted. */
  lemma {:induction false} OnlyShifted(p: Params, a: Bits, k: nat)
    requires p.Valid() && |a| == p.digits && k <= CHAR_BIT
    requires p.reflectIn ==> forall j :: 0 <= j < k ==> !a[j]
    requires !p.reflectIn ==> forall j :: Top(p) - k < j <= Top(p) ==> !a[j]
    ensures BitSteps(p, a, k) == if p.reflectIn then Shr(a, k) else Shl(a, k)
  {
    if k > 0 {
      OnlyShifted(p, a, k - 1);
      ShiftedOnce(p, a, k - 1);
    } else {
      assert Shr(a, 0) == a && Shl(a, 0) == a;
    }
  }

  lemma ShiftedOnce(p: Params, a: Bits, k: nat)
    requires p.Valid() && |a| == p.digits && k < CHAR_BIT
    ensures p.reflectIn && !a[k] ==> BitStep(p, Shr(a, k)) == Shr(a, k + 1)
    ensures !p.reflectIn && !a[Top(p) - k] ==> BitStep(p, Shl(a, k)) == Shl(a, k + 1)
  {
    assert Shr(Shr(a, k), 1) == Shr(a, k + 1) && Shl(Shl(a, k), 1) == Shl(a, k + 1);
    assert Shr(a, k)[0] == a[k] && Shl(a, k)[Top(p)] == a[Top(p) - k];
    hide Xor, Poly;
  }

  /** Unreflected, the bits up to the tested one depend only on each other. */
  lemma {:induction false} AgreeSteps(p: Params, a: Bits, b: Bits, k: nat)
    requires p.Valid() && |a| == |b| == p.digits && !p.reflectIn && Agree(a, b, Top(p) + 1)
    ensures Agree(BitSteps(p, a, k), BitSteps(p, b, k), Top(p) + 1)
  {
    hide BitStep, Agree;
    if k > 0 {
      AgreeSteps(p, a, b, k - 1);
      AgreeStep(p, BitSteps(p, a, k - 1), BitSteps(p, b, k - 1));
    }
  }

  lemma AgreeStep(p: Params, a: Bits, b: Bits)
    requires p.Valid() && |a| == |b| == p.digits && !p.reflectIn && Agree(a, b, Top(p) + 1)
    ensures Agree(BitStep(p, a), BitStep(p, b), Top(p) + 1)
  {
    hide Poly;
    var x, y := BitStep(p, a), BitStep(p, b);
    assert a[Top(p)] == b[Top(p)];
    forall i | 0 <= i <= Top(p) ensures x[i] == y[i] {
      assert i > 0 ==> a[i - 1] == b[i - 1];
    }
  }

  /** Reflected, a remainder wider than the CRC shrinks by one bit in each step until it fits. */
  lemma {:induction false} Shrinks(p: Params, a: Bits, m: nat, k: nat)
    requires p.Valid() && |a| == p.digits && p.reflectIn && Fits(a, m) && k <= m
    ensures Fits(BitSteps(p, a, k), if m - k > p.width then m - k else p.width)
  {
    hide BitStep;
    if k > 0 {
      Shrinks(p, a, m, k - 1);
      ShrinksOnce(p, BitSteps(p, a, k - 1), if m - k + 1 > p.width then m - k + 1 else p.width);
    }
  }

  lemma ShrinksOnce(p: Params, a: Bits, m: nat)
    requires p.Valid() && |a| == p.digits && p.reflectIn && p.width <= m && Fits(a, m)
    ensures Fits(BitStep(p, a), if m > p.width then m - 1 else p.width)
  {
  }

  /** Unreflected and narrow, the bits below the lifted remainder are only shifted, so a byte step clears them. */
  lemma {:induction false} BelowOnlyShifted(p: Params, a: Bits, k: nat)
    requires p.Valid() && |a| == p.digits && Narrow(p)
    ensures forall i :: 0 <= i < Lift(p) ==> BitSteps(p, a, k)[i] == (k <= i && a[i - k])
  {
    hide BitStep;
    if k > 0 {
      BelowOnlyShifted(p, a, k - 1);
      BelowShifted(p, BitSteps(p, a, k - 1));
    }
  }

  lemma BelowShifted(p: Params, a: Bits)
    requires p.Valid() && |a| == p.digits && Narrow(p)
    ensures forall i :: 0 <= i < Lift(p) ==> BitStep(p, a)[i] == (i > 0 && a[i - 1])
  {
    forall i | 0 <= i < Lift(p) ensures BitStep(p, a)[i] == (i > 0 && a[i - 1]) {
      assert !Poly(p)[i];
    }
  }

  // ---------------------------------------------------------------------------------------
  // Table look-up is the bitwise division
  // ---------------------------------------------------------------------------------------

  /** The bits that carry the remainder: the tested bit and all that can reach it. */
  function Span(p: Params): (n: nat)
    requires p.Valid()
    ensures n <= p.digits
  {
    if p.reflectIn then p.digits else Top(p) + 1
  }

  lemma OneByte(p: Params, b: Byte)
    requires p.Valid()
    ensures Remainder(p, [b], Zero(p.digits)) == Shr(BitSteps(p, Shl(Widen(b, p.digits), Lane(p)), CHAR_BIT), Lift(p))
  {
    var z := Shl(Zero(p.digits), Lift(p));
    assert z == Zero(p.digits);
    assert Bytes(p, z, [b]) == ByteStep(p, Bytes(p, z, []), b) by { assert [b][..0] == []; }
    assert Xor(z, Shl(Widen(b, p.digits), Lane(p))) == Shl(Widen(b, p.digits), Lane(p));
  }

  lemma ReflectedStep(p: Params, r: Bits, b: Byte)
    requires p.Valid() && |r| == p.digits && p.reflectIn
    ensures TableStep(p, r, b) == ByteStep(p, r, b)
  {
    var n := p.digits;
    var r1 := Xor(r, Widen(b, n));
    assert Shl(Widen(b, n), 0) == Widen(b, n) && Shr(r, 0) == r;
    var x := ToByte(r1);
    var lo := Widen(x, n);
    var hi := seq(n, i requires 0 <= i < n => i >= CHAR_BIT && r1[i]);
    assert r1 == Xor(hi, lo);
    Linear(p, hi, lo, CHAR_BIT);
    OnlyShifted(p, hi, CHAR_BIT);
    assert Shr(hi, CHAR_BIT) == Shr(r, CHAR_BIT);
    OneByte(p, x);
    assert Shl(lo, 0) == lo;
    Shrinks(p, lo, CHAR_BIT, CHAR_BIT);
    var e := BitSteps(p, lo, CHAR_BIT);
    assert Shl(Mask(Shr(e, 0), p.width), 0) == e;
  }

  lemma WideStep(p: Params, r: Bits, b: Byte)
    requires p.Valid() && |r| == p.digits && Wide(p)
    ensures Agree(TableStep(p, r, b), ByteStep(p, r, b), p.width)
  {
    var n, lane := p.digits, Lane(p);
    var r1 := Xor(r, Shl(Widen(b, n), lane));
    var x := ToByte(Xor(Shr(r, lane), Widen(b, n)));
    var t := Shl(Widen(x, n), lane);
    var rest := seq(n, i requires 0 <= i < n => !(lane <= i < p.width) && r1[i]);
    assert r1 == Xor(rest, t);
    Linear(p, rest, t, CHAR_BIT);
    OnlyShifted(p, rest, CHAR_BIT);
    assert Agree(Shl(rest, CHAR_BIT), Shl(r, CHAR_BIT), p.width);
    OneByte(p, x);
    assert Agree(Entry(p, x), BitSteps(p, t, CHAR_BIT), p.width);
  }

  lemma NarrowStep(p: Params, r: Bits, b: Byte)
    requires p.Valid() && |r| == p.digits && Narrow(p)
    ensures Agree(TableStep(p, r, b), ByteStep(p, r, b), CHAR_BIT)
  {
    var n := p.digits;
    assert Shl(Widen(b, n), 0) == Widen(b, n) && Shr(r, 0) == r;
    var r1 := Xor(r, Widen(b, n));
    var x := ToByte(r1);
    var lo := Widen(x, n);
    AgreeSteps(p, r1, lo, CHAR_BIT);
    assert Shl(lo, 0) == lo;
    OneByte(p, x);
    BelowOnlyShifted(p, lo, CHAR_BIT);
    var e := BitSteps(p, lo, CHAR_BIT);
    assert Agree(Entry(p, x), e, CHAR_BIT);
  }

  lemma StepsAgree(p: Params, r: Bits, r': Bits, b: Byte)
    requires p.Valid() && |r| == |r'| == p.digits && Agree(r, r', Span(p))
    ensures Agree(TableStep(p, r, b), ByteStep(p, r', b), Span(p))
  {
    ByteStepsAgree(p, r, r', b);
    if p.reflectIn {
      ReflectedStep(p, r, b);
    } else if Wide(p) {
      WideStep(p, r, b);
    } else {
      NarrowStep(p, r, b);
    }
  }

  lemma ByteStepsAgree(p: Params, r: Bits, r': Bits, b: Byte)
    requires p.Valid() && |r| == |r'| == p.digits && Agree(r, r', Span(p))
    ensures Agree(ByteStep(p, r, b), ByteStep(p, r', b), Span(p))
  {
    if p.reflectIn {
      assert r == r';
    } else {
      var w := Shl(Widen(b, p.digits), Lane(p));
      AgreeSteps(p, Xor(r, w), Xor(r', w), CHAR_BIT);
    }
  }

  lemma {:induction false} BytesAgree(p: Params, r: Bits, data: seq<Byte>)
    requires p.Valid() && |r| == p.digits
    ensures Agree(TableBytes(p, r, data), Bytes(p, r, data), Span(p))
  {
    if data != [] {
      var d := data[..|data| - 1];
      BytesAgree(p, r, d);
      hide Agree, ByteStep, TableStep;
      StepsAgree(p, TableBytes(p, r, d), Bytes(p, r, d), data[|data| - 1]);
    }
  }

  /** Table look-up computes the remainder of the bitwise division, for every width and in all three shapes. */
  lemma TableIsBitwise(p: Params, data: seq<Byte>, r: Bits)
    requires p.Valid() && |r| == p.digits
    ensures Agree(TableRemainder(p, data, r), Remainder(p, data, r), p.width)
    ensures Finalize(p, TableRemainder(p, data, r)) == Finalize(p, Remainder(p, data, r))
  {
    BytesAgree(p, Shl(r, Lift(p)), data);
    FinalizeAgree(p, TableRemainder(p, data, r), Remainder(p, data, r));
  }

  lemma FinalizeAgree(p: Params, a: Bits, b: Bits)
    requires p.Valid() && |a| == |b| == p.digits && Agree(a, b, p.width)
    ensures Finalize(p, a) == Finalize(p, b)
  {
  }
}
