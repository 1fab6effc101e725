/**
 The four node layouts of the adaptive radix tree, seen through the children they give for each byte.
 */
module ArtNodes {

  type Byte = b: int | 0 <= b < 256

  /** Keys have a fixed length of at most eight bytes. */
  type KeyLength = n: nat | 1 <= n <= 8 witness 8

  const KEY_LENGTH: KeyLength

  datatype Entry = Entry(key: seq<Byte>, value: nat)

  const EMPTY: nat := 48

  // A leaf is a tagged value; its key is what loading the key of that value gives.
  // `Node16` stores keys with flipped sign bits and compares them as signed bytes.
  datatype Node =
    | Null
    | Leaf(entry: Entry)
    | Node4(prefix: seq<Byte>, keys: seq<int>, kids: seq<Node>)
    | Node16(prefix: seq<Byte>, keys: seq<int>, kids: seq<Node>)
    | Node48(prefix: seq<Byte>, index: seq<nat>, slots: seq<Node>, count: nat)
    | Node256(prefix: seq<Byte>, slots: seq<Node>, count: nat)

  // ---------------------------------------------------------------------------------------
  // Tagged pointers
  // ---------------------------------------------------------------------------------------

  const WORD: nat := 0x1_0000_0000_0000_0000

  /** A value shifted up by one in a 64-bit word, with the lowest bit set. */
  function MakeLeaf(tid: nat): (p: nat) { (2 * tid) % WORD + 1 }

  function GetLeafValue(p: nat): (tid: nat) { p / 2 }

  predicate IsTagged(p: nat) { p % 2 == 1 }

  /** A leaf gives its value back exactly if the value leaves room for the tag. */
  lemma TagRoundTrip(tid: nat)
    ensures MakeLeaf(tid) < WORD && IsTagged(MakeLeaf(tid))
    ensures GetLeafValue(MakeLeaf(tid)) == tid <==> 2 * tid < WORD
  {
    var q := (2 * tid) / WORD;
    var m := tid - 0x8000_0000_0000_0000 * q;
    assert (2 * tid) % WORD == 2 * tid - WORD * q == 2 * m;
  }

  predicate IsInner(n: Node) { !n.Null? && !n.Leaf? }

  /** Flipping the sign bit of a byte and reading it as a signed number. */
  function Flip(b: Byte): (x: int)
    ensures -128 <= x < 128
  {
    b - 128
  }

  function Unflip(x: int): (b: Byte)
    requires -128 <= x < 128
  {
    x + 128
  }

  predicate Ascending(keys: seq<int>) {
    forall i, j :: 0 <= i < j < |keys| ==> keys[i] < keys[j]
  }

  /** The position of a key, or the number of keys. */
  function Position(keys: seq<int>, x: int): (p: nat)
    ensures p <= |keys| && (p < |keys| ==> keys[p] == x) && x !in keys[..p]
  {
    PositionFrom(keys, x, 0)
  }

  function PositionFrom(keys: seq<int>, x: int, lo: nat): (p: nat)
    requires lo <= |keys| && x !in keys[..lo]
    ensures p <= |keys| && (p < |keys| ==> keys[p] == x) && x !in keys[..p]
    decreases |keys| - lo
  {
    if lo < |keys| && keys[lo] != x then PositionFrom(keys, x, lo + 1) else lo
  }

  /** The child next to a key. */
  function Kid(keys: seq<int>, kids: seq<Node>, k: int): (r: Node) {
    var p := Position(keys, k);
    if p < |keys| && p < |kids| then kids[p] else Null
  }

  lemma KidAt(keys: seq<int>, kids: seq<Node>, i: nat)
    requires Ascending(keys) && i < |keys| == |kids|
    ensures Kid(keys, kids, keys[i]) == kids[i]
  {
  }

  lemma KidNone(keys: seq<int>, kids: seq<Node>, k: int)
    requires k !in keys
    ensures Kid(keys, kids, k) == Null
  {
  }

  // ---------------------------------------------------------------------------------------
  // Layouts
  // ---------------------------------------------------------------------------------------

  /** The searched child, or Null. */
  function Child(n: Node, b: Byte): (r: Node)
    ensures r == Null || r < n
  {
    match n
    case Node4(_, keys, kids) => Kid(keys, kids, b)
    case Node16(_, keys, kids) => Kid(keys, kids, Flip(b))
    case Node48(_, index, slots, _) =>
      if b < |index| && index[b] != EMPTY && index[b] < |slots| then slots[index[b]] else Null
    case Node256(_, slots, _) => if b < |slots| then slots[b] else Null
    case _ => Null
  }

  /** The bytes that have a child. */
  function Bytes(n: Node): (s: set<Byte>) {
    set b: Byte | 0 <= b < 256 && Child(n, b) != Null
  }

  predicate KeysOk(keys: seq<int>, kids: seq<Node>, cap: nat, lo: int) {
    && |keys| == |kids| <= cap && Ascending(keys)
    && (forall i :: 0 <= i < |keys| ==> lo <= keys[i] < lo + 256)
    && (forall i :: 0 <= i < |kids| ==> kids[i] != Null)
  }

  /** The index leads different bytes to different occupied slots, and every occupied slot is led to. */
  predicate IndexOk(index: seq<nat>, slots: seq<Node>) {
    && |index| == 256 && |slots| == EMPTY
    && (forall b :: 0 <= b < 256 ==> index[b] <= EMPTY && (index[b] < EMPTY ==> slots[index[b]] != Null))
    && (forall b, c :: 0 <= b < c < 256 && index[b] < EMPTY ==> index[b] != index[c])
    && (forall i :: 0 <= i < EMPTY && slots[i] != Null ==> i in index)
  }

  ghost predicate Layout(n: Node) {
    match n
    case Node4(_, keys, kids) => KeysOk(keys, kids, 4, 0)
    case Node16(_, keys, kids) => KeysOk(keys, kids, 16, -128)
    case Node48(_, index, slots, count) => IndexOk(index, slots) && count == |Bytes(n)|
    case Node256(_, slots, count) => |slots| == 256 && count == |Bytes(n)|
    case _ => false
  }

  /** `n'` has child `c` at byte `b` and otherwise the children of `n`. */
  ghost predicate Differs(n: Node, n': Node, b: Byte, c: Node) {
    forall x: Byte :: Child(n', x) == if x == b then c else Child(n, x)
  }

  ghost predicate SameKids(n: Node, n': Node) {
    forall x: Byte :: Child(n', x) == Child(n, x)
  }

  function Count(n: Node): (k: nat) {
    match n
    case Node4(_, keys, _) => |keys|
    case Node16(_, keys, _) => |keys|
    case Node48(_, _, _, count) => count
    case Node256(_, _, count) => count
    case _ => 0
  }

  lemma {:induction false} KeySetSize(keys: seq<int>, s: set<int>)
    requires Ascending(keys) && forall x :: x in s <==> x in keys
    ensures |s| == |keys|
  {
    if keys == [] {
      assert s == {} by { forall x ensures x !in s { assert x !in keys; } }
    } else {
      var n := |keys| - 1;
      var t := s - {keys[n]};
      forall x ensures x in t <==> x in keys[..n] {
        assert keys == keys[..n] + [keys[n]];
      }
      KeySetSize(keys[..n], t);
    }
  }

  lemma {:induction false} ShiftedSize(s: set<Byte>, t: set<int>, lo: int)
    requires forall x :: x in t <==> 0 <= x - lo < 256 && (x - lo) in s
    ensures |s| == |t|
    decreases s
  {
    if s == {} {
      assert t == {} by { forall x ensures x !in t { } }
    } else {
      var b :| b in s;
      assert b + lo in t;
      ShiftedSize(s - {b}, t - {b + lo}, lo);
    }
  }

  /** The counters count the children. */
  lemma CountIsBytes(n: Node)
    requires Layout(n)
    ensures Count(n) == |Bytes(n)|
  {
    if n.Node4? || n.Node16? {
      var lo := if n.Node4? then 0 else -128;
      var t := set i | 0 <= i < |n.keys| :: n.keys[i];
      forall x: Byte ensures x in Bytes(n) <==> x + lo in n.keys {
        ByteHasKey(n, lo, x);
      }
      hide Bytes;
      KeySetSize(n.keys, t);
      ShiftedSize(Bytes(n), t, lo);
    }
  }

  lemma ByteHasKey(n: Node, lo: int, x: Byte)
    requires Layout(n) && (n.Node4? || n.Node16?) && lo == (if n.Node4? then 0 else -128)
    ensures x in Bytes(n) <==> x + lo in n.keys
  {
    if x + lo in n.keys {
      var i :| 0 <= i < |n.keys| && n.keys[i] == x + lo;
      KidAt(n.keys, n.kids, i);
    } else {
      KidNone(n.keys, n.kids, x + lo);
    }
  }
}
