/**
 Machine integers of symbolic width as sequences of bits, least significant bit first, with the
 shifts, masks and exclusive-or that the CRC engine is written in.
 */
module CrcBits {

  type Bits = seq<bool>

  const CHAR_BIT: nat := 8

  type Byte = b: Bits | |b| == 8 witness seq(8, _ => false)

  function Zero(n: nat): (r: Bits)
    ensures |r| == n
  {
    seq(n, _ => false)
  }

  function Xor(a: Bits, b: Bits): (r: Bits)
    requires |a| == |b|
    ensures |r| == |a|
  {
    seq(|a|, i requires 0 <= i < |a| => a[i] != b[i])
  }

  function Shl(a: Bits, k: nat): (r: Bits)
    ensures |r| == |a|
  {
    seq(|a|, i requires 0 <= i < |a| => k <= i && a[i - k])
  }

  function Shr(a: Bits, k: nat): (r: Bits)
    ensures |r| == |a|
  {
    seq(|a|, i requires 0 <= i < |a| => i + k < |a| && a[i + k])
  }

  /** Keeps the low `width` bits. */
  function Mask(a: Bits, width: nat): (r: Bits)
    ensures |r| == |a|
  {
    seq(|a|, i requires 0 <= i < |a| => i < width && a[i])
  }

  /** A byte converted to an integer of `n` bits, and back. */
  function Widen(b: Byte, n: nat): (r: Bits)
    ensures |r| == n
  {
    seq(n, i requires 0 <= i < n => i < CHAR_BIT && b[i])
  }

  function ToByte(a: Bits): (r: Byte)
    requires |a| >= CHAR_BIT
  {
    a[..CHAR_BIT]
  }

  /** Both have the same low `width` bits. */
  predicate Agree(a: Bits, b: Bits, width: nat)
    requires |a| == |b|
  {
    forall i :: 0 <= i < |a| && i < width ==> a[i] == b[i]
  }

  /** No bit at or above `width` is set. */
  predicate Fits(a: Bits, width: nat) {
    forall i :: width <= i < |a| ==> !a[i]
  }

  /** The low `width` bits in reverse order; the bits above are dropped. */
  function Reversed(a: Bits, width: nat): (r: Bits)
    requires width <= |a|
    ensures |r| == |a|
  {
    seq(|a|, i requires 0 <= i < |a| => i < width && a[width - 1 - i])
  }

  /** The loop shifts bits out at one end of `value` and in at the other end of `reversed`. */
  method Reflect(value: Bits, width: nat) returns (reversed: Bits)
    requires width <= |value|
    ensures reversed == Reversed(value, width)
  {
    reversed := Zero(|value|);
    var rest := value;
    for i := 0 to width
      invariant |reversed| == |value| == |rest|
      invariant rest == Shr(value, i)
      invariant forall j :: 0 <= j < |value| ==> reversed[j] == (j < i && value[i - 1 - j])
    {
      reversed := Shl(reversed, 1)[0 := rest[0]];
      rest := Shr(rest, 1);
      assert rest == Shr(value, i + 1);
    }
    assert reversed == Reversed(value, width);
  }

  /** Reflecting is an involution on the low bits. */
  lemma ReversedTwice(a: Bits, width: nat)
    requires width <= |a|
    ensures Reversed(Reversed(a, width), width) == Mask(a, width)
  {
  }

  // ---------------------------------------------------------------------------------------
  // Bytes as array indices
  // ---------------------------------------------------------------------------------------

  function Pow2(k: nat): (n: nat)
    ensures n > 0
  {
    if k == 0 then 1 else 2 * Pow2(k - 1)
  }

  /** The number the bits from position `i` on stand for. */
  function ValueFrom(b: Bits, i: nat): (n: nat)
    requires i <= |b|
    ensures n < Pow2(|b| - i)
    decreases |b| - i
  {
    if i == |b| then 0 else (if b[i] then 1 else 0) + 2 * ValueFrom(b, i + 1)
  }

  function BitAt(n: nat, i: nat): bool {
    if i == 0 then n % 2 == 1 else BitAt(n / 2, i - 1)
  }

  lemma {:induction false} BitAtValue(b: Bits, j: nat, i: nat)
    requires j + i < |b|
    ensures BitAt(ValueFrom(b, j), i) == b[j + i]
    decreases i
  {
    if i > 0 {
      BitAtValue(b, j + 1, i - 1);
    }
  }

  /** The table index of a byte, and the byte of an index. */
  function Index(b: Byte): (n: nat)
    ensures n < 256
  {
    assert Pow2(8) == 256 by { assert Pow2(4) == 16; }
    ValueFrom(b, 0)
  }

  function ByteOf(n: nat): (b: Byte) {
    seq(CHAR_BIT, i requires 0 <= i < CHAR_BIT => BitAt(n, i))
  }

  lemma ByteOfIndex(b: Byte)
    ensures ByteOf(Index(b)) == b
  {
    forall i | 0 <= i < CHAR_BIT ensures ByteOf(Index(b))[i] == b[i] {
      BitAtValue(b, 0, i);
    }
  }
}
