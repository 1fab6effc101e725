/**
 What the remainders of the CRC engine mean: polynomials over the field of two elements, here the sets
 of their exponents. A remainder is the message times x to the width, plus the initial value times x to
 the message's length, modulo the generator.
 */
module CrcPoly {
  import opened CrcBits
  import opened Crc
  import opened CrcParts

  type Polynomial = set<nat>

  function Add(a: Polynomial, b: Polynomial): (c: Polynomial) { (a - b) + (b - a) }

  /** Multiplication by x to the `k`. */
  function Up(a: Polynomial, k: nat): (b: Polynomial)
    ensures forall j: nat :: j in b <==> j >= k && j - k in a
  {
    set i | i in a :: i + k
  }

  /** `q` times `g`, for the exponents of `q` below `n`. */
  function Times(q: Polynomial, n: nat, g: Polynomial): (r: Polynomial) {
    if n == 0 then {} else if n - 1 in q then Add(Times(q, n - 1, g), Up(g, n - 1)) else Times(q, n - 1, g)
  }

  /** Equal up to a multiple of `g`. */
  ghost predicate Congruent(a: Polynomial, b: Polynomial, g: Polynomial) {
    exists q: Polynomial, n: nat :: Add(a, b) == Times(q, n, g)
  }

  // ---------------------------------------------------------------------------------------
  // Congruence
  // ---------------------------------------------------------------------------------------

  lemma {:induction false} TimesAdd(q: Polynomial, r: Polynomial, n: nat, g: Polynomial)
    ensures Times(Add(q, r), n, g) == Add(Times(q, n, g), Times(r, n, g))
  {
    if n > 0 {
      TimesAdd(q, r, n - 1, g);
    }
  }

  function Below(q: Polynomial, n: nat): (r: Polynomial) { set i | i in q && i < n }

  lemma {:induction false} TimesBelow(q: Polynomial, n: nat, m: nat, g: Polynomial)
    ensures Times(Below(q, n), m, g) == Times(q, if m < n then m else n, g)
  {
    if m > 0 {
      TimesBelow(q, n, m - 1, g);
    }
  }

  lemma {:induction false} TimesUp(q: Polynomial, n: nat, g: Polynomial, k: nat)
    ensures Times(Up(q, k), n + k, g) == Up(Times(q, n, g), k)
    decreases n + k
  {
    if n > 0 {
      TimesUp(q, n - 1, g, k);
      assert Up(Up(g, n - 1), k) == Up(g, n - 1 + k);
    } else if k > 0 {
      NothingBelow(q, k, g, k);
    }
  }

  lemma {:induction false} NothingBelow(q: Polynomial, k: nat, g: Polynomial, n: nat)
    requires n <= k
    ensures Times(Up(q, k), n, g) == {}
  {
    if n > 0 {
      NothingBelow(q, k, g, n - 1);
    }
  }

  lemma {:induction false} TimesOfUp(q: Polynomial, n: nat, g: Polynomial, k: nat)
    ensures Times(q, n, Up(g, k)) == Up(Times(q, n, g), k)
  {
    if n > 0 {
      TimesOfUp(q, n - 1, g, k);
      assert Up(Up(g, k), n - 1) == Up(Up(g, n - 1), k);
    }
  }

  lemma Same(a: Polynomial, g: Polynomial)
    ensures Congruent(a, a, g)
  {
    assert Add(a, a) == Times({}, 0, g);
  }

  lemma OneMultiple(a: Polynomial, b: Polynomial, g: Polynomial)
    requires Add(a, b) == g
    ensures Congruent(a, b, g)
  {
    assert Up(g, 0) == g;
    assert Times({0}, 1, g) == Add(Times({0}, 0, g), Up(g, 0));
    assert Add({}, g) == g;
    assert Add(a, b) == Times({0}, 1, g);
  }

  lemma Chain(a: Polynomial, b: Polynomial, c: Polynomial, g: Polynomial)
    requires Congruent(a, b, g) && Congruent(b, c, g)
    ensures Congruent(a, c, g)
  {
    var q: Polynomial, n: nat :| Add(a, b) == Times(q, n, g);
    var r: Polynomial, m: nat :| Add(b, c) == Times(r, m, g);
    var top := if n < m then m else n;
    TimesBelow(q, n, top, g);
    TimesBelow(r, m, top, g);
    TimesAdd(Below(q, n), Below(r, m), top, g);
    assert Add(a, c) == Add(Add(a, b), Add(b, c));
    assert Add(a, c) == Times(Add(Below(q, n), Below(r, m)), top, g);
  }

  lemma Plus(a: Polynomial, b: Polynomial, c: Polynomial, g: Polynomial)
    requires Congruent(a, b, g)
    ensures Congruent(Add(a, c), Add(b, c), g)
  {
    assert Add(Add(a, c), Add(b, c)) == Add(a, b);
  }

  lemma Raised(a: Polynomial, b: Polynomial, g: Polynomial, k: nat)
    requires Congruent(a, b, g)
    ensures Congruent(Up(a, k), Up(b, k), g)
  {
    var q: Polynomial, n: nat :| Add(a, b) == Times(q, n, g);
    TimesUp(q, n, g, k);
    UpAdd(a, b, k);
    assert Add(Up(a, k), Up(b, k)) == Times(Up(q, k), n + k, g);
  }

  lemma UpAdd(a: Polynomial, b: Polynomial, k: nat)
    ensures Up(Add(a, b), k) == Add(Up(a, k), Up(b, k))
  {
  }

  lemma UpUp(a: Polynomial, k: nat, m: nat)
    ensures Up(Up(a, k), m) == Up(a, k + m)
  {
  }

  /** A common power of x cancels. */
  lemma Lowered(a: Polynomial, b: Polynomial, g: Polynomial, k: nat)
    requires Congruent(Up(a, k), Up(b, k), Up(g, k))
    ensures Congruent(a, b, g)
  {
    var q: Polynomial, n: nat :| Add(Up(a, k), Up(b, k)) == Times(q, n, Up(g, k));
    TimesOfUp(q, n, g, k);
    UpAdd(a, b, k);
    hide Add, Up, Times;
    UpInjective(Add(a, b), Times(q, n, g), k);
  }

  lemma UpInjective(a: Polynomial, b: Polynomial, k: nat)
    requires Up(a, k) == Up(b, k)
    ensures a == b
  {
    forall j: nat ensures j in a <==> j in b {
      assert j + k in Up(a, k) <==> j + k in Up(b, k);
    }
  }

  /** Polynomials of lower degree than the generator are congruent only if they are equal. */
  lemma Unique(a: Polynomial, b: Polynomial, g: Polynomial, d: nat)
    requires Congruent(a, b, g) && d in g && (forall i :: i in g ==> i <= d)
    requires (forall i :: i in a ==> i < d) && (forall i :: i in b ==> i < d)
    ensures a == b
  {
    var q: Polynomial, n: nat :| Add(a, b) == Times(q, n, g);
    Multiple(q, n, g, d);
    assert Add(a, b) == {};
    forall i ensures i in a <==> i in b {
      assert i !in Add(a, b);
    }
  }

  /** A multiple of the generator is zero or has at least its degree. */
  lemma {:induction false} Multiple(q: Polynomial, n: nat, g: Polynomial, d: nat)
    requires d in g && (forall i :: i in g ==> i <= d)
    ensures forall i :: i in Times(q, n, g) ==> i < n + d
    ensures Times(q, n, g) == {} || exists i :: i in Times(q, n, g) && i >= d
  {
    if n > 0 {
      Multiple(q, n - 1, g, d);
      if n - 1 in q {
        assert n - 1 + d in Up(g, n - 1);
        assert n - 1 + d in Times(q, n, g);
      }
    }
  }

  // ---------------------------------------------------------------------------------------
  // Registers
  // ---------------------------------------------------------------------------------------

  /** The generator: the polynomial parameter below x to the width. */
  function Generator(p: Params): (g: Polynomial)
    requires p.Valid()
  {
    {p.width} + set i | 0 <= i < p.width && p.poly[i]
  }

  /** The bit at `i` of the low `n` bits, counted from their top. */
  predicate FromTop(r: Bits, n: nat, i: nat)
    requires i < n <= |r|
  {
    r[n - 1 - i]
  }

  /** The bits of a CRC as a polynomial, its highest bit first or last. */
  function Value(p: Params, r: Bits): (v: Polynomial)
    requires p.Valid() && |r| == p.digits
    ensures forall e :: e in v ==> e < p.width
  {
    if p.reflectIn then set i | 0 <= i < p.width && FromTop(r, p.width, i)
    else set i | 0 <= i < p.width && r[i]
  }

  function ByteValue(p: Params, b: Byte): (v: Polynomial) {
    if p.reflectIn then set i | 0 <= i < CHAR_BIT && FromTop(b, CHAR_BIT, i)
    else set i | 0 <= i < CHAR_BIT && b[i]
  }

  /** The message, first bit highest. */
  function Message(p: Params, data: seq<Byte>): (v: Polynomial) {
    if data == [] then {}
    else Add(Up(Message(p, data[..|data| - 1]), CHAR_BIT), ByteValue(p, data[|data| - 1]))
  }

  /** The whole register that is divided. */
  function Register(p: Params, r: Bits): (v: Polynomial)
    requires p.Valid() && |r| == p.digits
  {
    if p.reflectIn then set i | 0 <= i < p.digits && FromTop(r, p.digits, i)
    else set i | 0 <= i <= Top(p) && r[i]
  }

  /** How far the CRC stands from the low end of the register. */
  function Offset(p: Params): (k: nat)
    requires p.Valid()
  {
    if p.reflectIn then p.digits - p.width else Lift(p)
  }

  lemma RegisterXor(p: Params, a: Bits, b: Bits)
    requires p.Valid() && |a| == |b| == p.digits
    ensures Register(p, Xor(a, b)) == Add(Register(p, a), Register(p, b))
  {
  }

  /** Shifting loses the highest power. */
  lemma RegisterShifted(p: Params, r: Bits)
    requires p.Valid() && |r| == p.digits
    ensures p.reflectIn ==> Add(Register(p, Shr(r, 1)), Up(Register(p, r), 1)) == if r[0] then {p.digits} else {}
    ensures !p.reflectIn ==> Add(Register(p, Shl(r, 1)), Up(Register(p, r), 1)) == if r[Top(p)] then {Top(p) + 1}
            else {}
  {
  }

  lemma PolyIsGenerator(p: Params)
    requires p.Valid()
    ensures p.reflectIn ==> Add(Register(p, Crc.Poly(p)), {p.digits}) == Up(Generator(p), Offset(p))
    ensures !p.reflectIn ==> Add(Register(p, Crc.Poly(p)), {Top(p) + 1}) == Up(Generator(p), Offset(p))
  {
  }

  /** One step of division multiplies by x. */
  lemma BitStepIs(p: Params, r: Bits)
    requires p.Valid() && |r| == p.digits
    ensures Congruent(Register(p, BitStep(p, r)), Up(Register(p, r), 1), Up(Generator(p), Offset(p)))
  {
    hide Register, Up, Generator, Crc.Poly;
    var g := Up(Generator(p), Offset(p));
    RegisterShifted(p, r);
    PolyIsGenerator(p);
    var shifted := if p.reflectIn then Shr(r, 1) else Shl(r, 1);
    var a, b, q := Register(p, shifted), Up(Register(p, r), 1), Register(p, Crc.Poly(p));
    var top := if p.reflectIn then p.digits else Top(p) + 1;
    if if p.reflectIn then r[0] else r[Top(p)] {
      RegisterXor(p, shifted, Crc.Poly(p));
      assert Add(Add(a, q), b) == Add(q, {top}) by { AddMoves(a, q, b, {top}); }
      OneMultiple(Register(p, BitStep(p, r)), b, g);
    } else {
      NoDifference(a, b);
      Same(a, g);
    }
  }

  lemma AddMoves(a: Polynomial, q: Polynomial, b: Polynomial, t: Polynomial)
    requires Add(a, b) == t
    ensures Add(Add(a, q), b) == Add(q, t)
  {
  }

  lemma NoDifference(a: Polynomial, b: Polynomial)
    requires Add(a, b) == {}
    ensures a == b
  {
    forall i: nat ensures i in a <==> i in b {
      assert i !in Add(a, b);
    }
  }

  lemma {:induction false} BitStepsAre(p: Params, r: Bits, k: nat)
    requires p.Valid() && |r| == p.digits
    ensures Congruent(Register(p, BitSteps(p, r, k)), Up(Register(p, r), k), Up(Generator(p), Offset(p)))
  {
    hide Register, Generator, BitStep, Congruent;
    var g := Up(Generator(p), Offset(p));
    if k == 0 {
      assert Up(Register(p, r), 0) == Register(p, r);
      Same(Register(p, r), g);
    } else {
      var x := BitSteps(p, r, k - 1);
      BitStepsAre(p, r, k - 1);
      BitStepIs(p, x);
      Raised(Register(p, x), Up(Register(p, r), k - 1), g, 1);
      UpUp(Register(p, r), k - 1, 1);
      Chain(Register(p, BitStep(p, x)), Up(Register(p, x), 1), Up(Register(p, r), k), g);
    }
  }

  /** A byte goes in above the width. */
  lemma LaneIs(p: Params, b: Byte)
    requires p.Valid()
    ensures Up(Register(p, Shl(Widen(b, p.digits), Lane(p))), CHAR_BIT) == Up(ByteValue(p, b), p.width + Offset(p))
  {
    var w := Shl(Widen(b, p.digits), Lane(p));
    forall j: nat ensures j in Up(Register(p, w), CHAR_BIT) <==> j in Up(ByteValue(p, b), p.width + Offset(p)) {
      if p.reflectIn {
        assert j >= CHAR_BIT && j - CHAR_BIT < p.digits ==>
               FromTop(w, p.digits, j - CHAR_BIT) == w[p.digits + CHAR_BIT - 1 - j];
        assert j >= p.digits && j - p.digits < CHAR_BIT ==>
               FromTop(b, CHAR_BIT, j - p.digits) == b[p.digits + CHAR_BIT - 1 - j];
      } else {
        assert j >= CHAR_BIT && j - CHAR_BIT <= Top(p) ==>
               w[j - CHAR_BIT] == (Lane(p) <= j - CHAR_BIT && Widen(b, p.digits)[j - CHAR_BIT - Lane(p)]);
      }
    }
  }

  lemma ByteStepIs(p: Params, r: Bits, b: Byte)
    requires p.Valid() && |r| == p.digits
    ensures Congruent(Register(p, ByteStep(p, r, b)),
                      Add(Up(Register(p, r), CHAR_BIT), Up(ByteValue(p, b), p.width + Offset(p))),
                        Up(Generator(p), Offset(p)))
  {
    hide Register, Generator, BitStep, Congruent, Up, ByteValue;
    var w := Shl(Widen(b, p.digits), Lane(p));
    BitStepsAre(p, Xor(r, w), CHAR_BIT);
    RegisterXor(p, r, w);
    UpAdd(Register(p, r), Register(p, w), CHAR_BIT);
    LaneIs(p, b);
  }

  lemma {:induction false} BytesAre(p: Params, r: Bits, data: seq<Byte>)
    requires p.Valid() && |r| == p.digits
    ensures Congruent(Register(p, Bytes(p, r, data)),
                      Add(Up(Register(p, r), CHAR_BIT * |data|), Up(Message(p, data), p.width + Offset(p))),
                        Up(Generator(p), Offset(p)))
  {
    hide Register, Generator, ByteStep, Congruent, ByteValue;
    var g, k, n := Up(Generator(p), Offset(p)), p.width + Offset(p), |data|;
    if data == [] {
      assert Add(Up(Register(p, r), 0), Up({}, k)) == Register(p, r);
      Same(Register(p, r), g);
    } else {
      var d, b := data[..n - 1], data[n - 1];
      var x, m, v := Bytes(p, r, d), Message(p, d), ByteValue(p, b);
      BytesAre(p, r, d);
      ByteStepIs(p, x, b);
      var y := Add(Up(Register(p, r), CHAR_BIT * (n - 1)), Up(m, k));
      Raised(Register(p, x), y, g, CHAR_BIT);
      Plus(Up(Register(p, x), CHAR_BIT), Up(y, CHAR_BIT), Up(v, k), g);
      LongerMessage(Register(p, r), CHAR_BIT * (n - 1), m, k, v);
      Chain(Register(p, ByteStep(p, x, b)), Add(Up(Register(p, x), CHAR_BIT), Up(v, k)),
            Add(Up(y, CHAR_BIT), Up(v, k)), g);
    }
  }

  lemma LongerMessage(r: Polynomial, n: nat, m: Polynomial, k: nat, v: Polynomial)
    ensures Add(Up(Add(Up(r, n), Up(m, k)), CHAR_BIT), Up(v, k)) == Add(Up(r, n + CHAR_BIT),
                Up(Add(Up(m, CHAR_BIT), v), k))
  {
    UpAdd(Up(r, n), Up(m, k), CHAR_BIT);
    UpUp(r, n, CHAR_BIT);
    UpUp(m, k, CHAR_BIT);
    UpUp(m, CHAR_BIT, k);
    UpAdd(Up(m, CHAR_BIT), v, k);
    hide Up;
  }

  // ---------------------------------------------------------------------------------------
  // Remainders
  // ---------------------------------------------------------------------------------------

  lemma {:induction false} StaysInWidth(p: Params, r: Bits, data: seq<Byte>)
    requires p.Valid() && |r| == p.digits && p.reflectIn && Fits(r, p.width)
    ensures Fits(Bytes(p, r, data), p.width)
  {
    if data != [] {
      StaysInWidth(p, r, data[..|data| - 1]);
      var x := Xor(Bytes(p, r, data[..|data| - 1]), Shl(Widen(data[|data| - 1], p.digits), 0));
      Shrinks(p, x, if p.width > CHAR_BIT then p.width else CHAR_BIT, CHAR_BIT);
    }
  }

  /** A CRC in its place in the register. */
  lemma PlacedValue(p: Params, r: Bits)
    requires p.Valid() && |r| == p.digits && (p.reflectIn ==> Fits(r, p.width))
    ensures Register(p, Shl(r, Lift(p))) == Up(Value(p, r), Offset(p))
  {
    var x := Shl(r, Lift(p));
    forall j: nat ensures j in Register(p, x) <==> j in Up(Value(p, r), Offset(p)) {
      if p.reflectIn {
        assert j < p.digits ==> FromTop(x, p.digits, j) == r[p.digits - 1 - j];
        assert Offset(p) <= j < p.digits ==> FromTop(r, p.width, j - Offset(p)) == r[p.digits - 1 - j];
      } else {
        assert j <= Top(p) ==> x[j] == (Lift(p) <= j && r[j - Lift(p)]);
      }
    }
  }

  lemma TakenValue(p: Params, x: Bits)
    requires p.Valid() && |x| == p.digits && (p.reflectIn ==> Fits(x, p.width))
             && (forall i :: 0 <= i < Lift(p) ==> !x[i])
    ensures Register(p, x) == Up(Value(p, Shr(x, Lift(p))), Offset(p))
  {
    var r := Shr(x, Lift(p));
    forall j: nat ensures j in Register(p, x) <==> j in Up(Value(p, r), Offset(p)) {
      if p.reflectIn {
        assert j < p.digits ==> FromTop(x, p.digits, j) == x[p.digits - 1 - j];
        assert Offset(p) <= j < p.digits ==> FromTop(r, p.width, j - Offset(p)) == r[p.digits - 1 - j];
      } else {
        assert Lift(p) <= j <= Top(p) ==> r[j - Lift(p)] == x[j];
      }
    }
  }

  /** The same for the register that the remainder is taken from. */
  lemma RemainderInPlace(p: Params, data: seq<Byte>, r: Bits)
    requires p.Valid() && |r| == p.digits && (p.reflectIn ==> Fits(r, p.width))
    ensures var k := Offset(p);
            Congruent(Up(Value(p, Remainder(p, data, r)), k),
                      Add(Up(Up(Value(p, r), k), CHAR_BIT * |data|), Up(Message(p, data), p.width + k)),
                      Up(Generator(p), k))
  {
    hide Congruent, Register, Value, Message, Generator, Up, Bytes;
    var first := Shl(r, Lift(p));
    ClearBelow(p, r, data);
    if p.reflectIn {
      assert first == r;
      StaysInWidth(p, r, data);
    }
    BytesAre(p, first, data);
    PlacedValue(p, r);
    TakenValue(p, Bytes(p, first, data));
  }

  /**
   The remainder of any data is congruent, modulo the generator, to the message times x to the width plus
   the initial value times x to the number of message bits. By `Unique` it is the only such polynomial of
   lower degree than the generator.
   */
  lemma RemainderIs(p: Params, data: seq<Byte>, r: Bits)
    requires p.Valid() && |r| == p.digits && (p.reflectIn ==> Fits(r, p.width))
    ensures Congruent(Value(p, Remainder(p, data, r)),
                      Add(Up(Value(p, r), CHAR_BIT * |data|), Up(Message(p, data), p.width)), Generator(p))
  {
    hide Congruent, Value, Message, Generator, Up, Remainder;
    var k, n := Offset(p), CHAR_BIT * |data|;
    RemainderInPlace(p, data, r);
    var v, w, m := Value(p, r), Value(p, Remainder(p, data, r)), Message(p, data);
    UpUp(v, k, n);
    UpUp(v, n, k);
    UpUp(m, p.width, k);
    UpAdd(Up(v, n), Up(m, p.width), k);
    Lowered(w, Add(Up(v, n), Up(m, p.width)), Generator(p), k);
  }

  /** Any polynomial below the generator's degree that is congruent to it is the remainder. */
  lemma RemainderIsUnique(p: Params, data: seq<Byte>, r: Bits, v: Polynomial)
    requires p.Valid() && |r| == p.digits && (p.reflectIn ==> Fits(r, p.width)) && (forall e :: e in v ==> e < p.width)
    ensures Congruent(v, Add(Up(Value(p, r), CHAR_BIT * |data|), Up(Message(p, data), p.width)), Generator(p))
            <==> v == Value(p, Remainder(p, data, r))
  {
    var w, t := Value(p, Remainder(p, data, r)), Add(Up(Value(p, r), CHAR_BIT * |data|), Up(Message(p, data), p.width));
    RemainderIs(p, data, r);
    if Congruent(v, t, Generator(p)) {
      Swap(w, t, Generator(p));
      Chain(v, t, w, Generator(p));
      Unique(v, w, Generator(p), p.width);
    }
  }

  lemma RegisterBelow(p: Params, r: Bits)
    requires p.Valid() && |r| == p.digits
    ensures forall e :: e in Register(p, r) ==> e < p.width + Offset(p)
  {
  }

  lemma GeneratorTop(p: Params)
    requires p.Valid()
    ensures var g, d := Up(Generator(p), Offset(p)), p.width + Offset(p); d in g && forall i :: i in g ==> i <= d
  {
  }

  /**
   Whatever the initial value, bits above the width included: the whole register is the only polynomial
   below the degree of the generator, shifted to its place, that is congruent to the message times that
   power of x plus the initial register times x to the number of message bits.
   */
  lemma RegisterIsUnique(p: Params, data: seq<Byte>, r: Bits, v: Polynomial)
    requires p.Valid() && |r| == p.digits && (forall e :: e in v ==> e < p.width + Offset(p))
    ensures Congruent(v, Add(Up(Register(p, r), CHAR_BIT * |data|), Up(Message(p, data), p.width + Offset(p))),
                      Up(Generator(p), Offset(p)))
            <==> v == Register(p, Bytes(p, r, data))
  {
    hide Congruent, Register, Message, Generator, Up, Offset, Add;
    var w, g := Register(p, Bytes(p, r, data)), Up(Generator(p), Offset(p));
    var t := Add(Up(Register(p, r), CHAR_BIT * |data|), Up(Message(p, data), p.width + Offset(p)));
    BytesAre(p, r, data);
    if Congruent(v, t, g) {
      Swap(w, t, g);
      Chain(v, t, w, g);
      RegisterBelow(p, Bytes(p, r, data));
      GeneratorTop(p);
      Unique(v, w, g, p.width + Offset(p));
    }
  }

  lemma Swap(a: Polynomial, b: Polynomial, g: Polynomial)
    requires Congruent(a, b, g)
    ensures Congruent(b, a, g)
  {
    assert Add(a, b) == Add(b, a);
  }
}
