/**
 Child updates for any layout: adding a child grows a full node, removing one shrinks a sparse node and
 dissolves a node that would be left with a single child.
 */
module ArtSlots {
  import opened ArtNodes
  import opened ArtLayout

  /** The number of children each layout is used for. */
  predicate Sized(n: Node) {
    match n
    case Node4(_, _, _) => 2 <= Count(n) <= 4
    case Node16(_, _, _) => 4 <= Count(n) <= 16
    case Node48(_, _, _, _) => 13 <= Count(n) <= 48
    case Node256(_, _, _) => 38 <= Count(n) <= 256
    case _ => false
  }

  /** `n'` is `n` with child `c` put at byte `b`. */
  ghost predicate Added(n: Node, n': Node, b: Byte, c: Node) {
    && IsInner(n) && IsInner(n') && Layout(n') && n'.prefix == n.prefix && Differs(n, n', b, c)
       && Count(n') == Count(n) + 1
  }

  method InsertNode4(n: Node, b: Byte, c: Node) returns (n': Node)
    requires n.Node4? && Layout(n) && Child(n, b) == Null && c != Null
    ensures Added(n, n', b, c) && (Count(n) < 4 ==> n'.Node4?) && (Count(n) >= 4 ==> n'.Node16?)
  {
    if |n.keys| < 4 {
      var pos := 0;
      while pos < |n.keys| && n.keys[pos] < b
        invariant pos <= |n.keys| && (pos > 0 ==> n.keys[pos - 1] < b)
      {
        pos := pos + 1;
      }
      n' := Node4(n.prefix, Put(n.keys, pos, b), Put(n.kids, pos, c));
      PutKids(n.keys, n.kids, 4, 0, pos, b, c);
      forall x: Byte ensures Child(n', x) == if x == b then c else Child(n, x) {
        PutKid(n.keys, n.kids, pos, b, c, x);
      }
    } else {
      Grow4(n);
      var grown := Node16(n.prefix, Shifted(n.keys, -128), n.kids);
      n' := InsertNode16(grown, b, c);
    }
  }

  method InsertNode16(n: Node, b: Byte, c: Node) returns (n': Node)
    requires n.Node16? && Layout(n) && Child(n, b) == Null && c != Null
    ensures Added(n, n', b, c) && (Count(n) < 16 ==> n'.Node16?) && (Count(n) >= 16 ==> n'.Node48?)
  {
    if |n.keys| < 16 {
      var k := Flip(b);
      var pos := 0;
      while pos < |n.keys| && !(k < n.keys[pos])
        invariant pos <= |n.keys| && (pos > 0 ==> n.keys[pos - 1] < k)
      {
        pos := pos + 1;
      }
      n' := Node16(n.prefix, Put(n.keys, pos, k), Put(n.kids, pos, c));
      PutKids(n.keys, n.kids, 16, -128, pos, k, c);
      forall x: Byte ensures Child(n', x) == if x == b then c else Child(n, x) {
        PutKid(n.keys, n.kids, pos, k, c, Flip(x));
      }
    } else {
      var grown := Grow16(n);
      n' := InsertNode48(grown, b, c);
    }
  }

  method InsertNode48(n: Node, b: Byte, c: Node) returns (n': Node)
    requires n.Node48? && Layout(n) && Child(n, b) == Null && c != Null
    ensures Added(n, n', b, c) && (Count(n) < 48 ==> n'.Node48?) && (Count(n) >= 48 ==> n'.Node256?)
  {
    if n.count < 48 {
      FreeSlot(n);
      var pos := n.count;
      if n.slots[pos] != Null {
        pos := 0;
        while n.slots[pos] != Null
          invariant pos < EMPTY && forall i :: 0 <= i < pos ==> n.slots[i] != Null
          decreases EMPTY - pos
        {
          pos := pos + 1;
        }
      }
      n' := Node48(n.prefix, n.index[b := pos], n.slots[pos := c], n.count + 1);
      Index48Put(n, b, pos, c);
    } else {
      var grown := Grow48(n);
      n' := InsertNode256(grown, b, c);
    }
  }

  method InsertNode256(n: Node, b: Byte, c: Node) returns (n': Node)
    requires n.Node256? && Layout(n) && Child(n, b) == Null && c != Null
    ensures Added(n, n', b, c) && n'.Node256?
  {
    n' := Node256(n.prefix, n.slots[b := c], n.count + 1);
    Slots256(n, b, c);
  }

  method InsertChild(n: Node, b: Byte, c: Node) returns (n': Node)
    requires IsInner(n) && Layout(n) && Sized(n) && Child(n, b) == Null && c != Null
    ensures Added(n, n', b, c) && Sized(n')
  {
    match n
    case Node4(_, _, _) => n' := InsertNode4(n, b, c);
    case Node16(_, _, _) => n' := InsertNode16(n, b, c);
    case Node48(_, _, _, _) => n' := InsertNode48(n, b, c);
    case Node256(_, _, _) =>
      n' := InsertNode256(n, b, c);
      CountIsBytes(n');
      AtMost256(Bytes(n'));
  }

  function BytesBelow(k: nat): (s: set<Byte>)
    requires k <= 256
    ensures |s| == k && forall b: Byte :: b in s <==> b < k
  {
    if k == 0 then {} else BytesBelow(k - 1) + {k - 1}
  }

  lemma AtMost256(s: set<Byte>)
    ensures |s| <= 256
  {
    assert s <= BytesBelow(256);
    SubsetSize(s, BytesBelow(256));
  }

  // ---------------------------------------------------------------------------------------
  // Replacing a child in place
  // ---------------------------------------------------------------------------------------

  function Replaced(n: Node, b: Byte, c: Node): (n': Node)
    requires IsInner(n) && Layout(n) && Child(n, b) != Null
  {
    match n
    case Node4(p, keys, kids) => Node4(p, keys, kids[Position(keys, b) := c])
    case Node16(p, keys, kids) => Node16(p, keys, kids[Position(keys, Flip(b)) := c])
    case Node48(p, index, slots, count) => Node48(p, index, slots[index[b] := c], count)
    case Node256(p, slots, count) => Node256(p, slots[b := c], count)
  }

  lemma ReplacedChild(n: Node, b: Byte, c: Node, x: Byte)
    requires IsInner(n) && Layout(n) && Child(n, b) != Null && c != Null
    ensures Child(Replaced(n, b, c), x) == if x == b then c else Child(n, x)
  {
  }

  lemma ReplacedOk(n: Node, b: Byte, c: Node)
    requires IsInner(n) && Layout(n) && Child(n, b) != Null && c != Null
    ensures var n' := Replaced(n, b, c);
            IsInner(n') && Layout(n') && Differs(n, n', b, c) && n'.prefix == n.prefix && Count(n') == Count(n)
              && (Sized(n) ==> Sized(n'))
  {
    var n' := Replaced(n, b, c);
    forall x: Byte ensures Child(n', x) == if x == b then c else Child(n, x) {
      ReplacedChild(n, b, c, x);
    }
    if n.Node48? || n.Node256? {
      forall x: Byte ensures x in Bytes(n') <==> x in Bytes(n) {
      }
      assert Bytes(n') == Bytes(n);
    }
  }

  // ---------------------------------------------------------------------------------------
  // Removing a child
  // ---------------------------------------------------------------------------------------

  /** `n'` is `n` without its child at `b`. */
  ghost predicate Removed(n: Node, n': Node, b: Byte) {
    && IsInner(n) && IsInner(n') && Layout(n') && n'.prefix == n.prefix && Differs(n, n', b, Null)
       && Count(n') + 1 == Count(n)
  }

  function WithPrefix(n: Node, prefix: seq<Byte>): (n': Node)
    requires IsInner(n)
  {
    match n
    case Node4(_, keys, kids) => Node4(prefix, keys, kids)
    case Node16(_, keys, kids) => Node16(prefix, keys, kids)
    case Node48(_, index, slots, count) => Node48(prefix, index, slots, count)
    case Node256(_, slots, count) => Node256(prefix, slots, count)
  }

  lemma WithPrefixOk(n: Node, prefix: seq<Byte>)
    requires IsInner(n) && Layout(n)
    ensures var n' := WithPrefix(n, prefix);
            IsInner(n') && Layout(n') && SameKids(n, n') && Count(n') == Count(n) && n'.prefix == prefix
              && (Sized(n) ==> Sized(n'))
  {
    var n' := WithPrefix(n, prefix);
    forall x: Byte ensures Child(n', x) == Child(n, x) {
    }
    BytesSame(n, n');
  }

  /** The path to the only child goes into the child. */
  function Dissolved(n: Node, x: Byte, c: Node): (n': Node)
    requires IsInner(n)
  {
    if IsInner(c) then WithPrefix(c, n.prefix + [x] + c.prefix) else c
  }

  method EraseNode4(n: Node, b: Byte) returns (n': Node, ghost only: Byte)
    requires n.Node4? && Layout(n) && Count(n) >= 2 && Child(n, b) != Null
    ensures Count(n) > 2 ==> Removed(n, n', b) && n'.Node4?
    ensures Count(n) == 2 ==> only != b && Child(n, only) != Null && n' == Dissolved(n, only, Child(n, only))
                              && forall x: Byte :: Child(n, x) != Null ==> x == b || x == only
  {
    var pos := Position(n.keys, b);
    var rest := Node4(n.prefix, Drop(n.keys, pos), Drop(n.kids, pos));
    forall x: Byte ensures Child(rest, x) == if x == b then Null else Child(n, x) {
      DropKid(n.keys, n.kids, pos, x);
    }
    only := 0;
    if |rest.keys| == 1 {
      var x := rest.keys[0];
      only := x;
      KidAt(rest.keys, rest.kids, 0);
      n' := Dissolved(n, x, rest.kids[0]);
    } else {
      n' := rest;
    }
  }

  method EraseNode16(n: Node, b: Byte) returns (n': Node)
    requires n.Node16? && Layout(n) && 4 <= Count(n) && Child(n, b) != Null
    ensures Removed(n, n', b) && (if Count(n) == 4 then n'.Node4? else n'.Node16?)
  {
    var pos := Position(n.keys, Flip(b));
    n' := Node16(n.prefix, Drop(n.keys, pos), Drop(n.kids, pos));
    forall x: Byte ensures Child(n', x) == if x == b then Null else Child(n, x) {
      DropKid(n.keys, n.kids, pos, Flip(x));
    }
    if |n'.keys| == 3 {
      Shrink16(n');
      n' := Node4(n'.prefix, Shifted(n'.keys, 128), n'.kids);
    }
  }

  method EraseNode48(n: Node, b: Byte) returns (n': Node)
    requires n.Node48? && Layout(n) && Child(n, b) != Null
    ensures Removed(n, n', b) && (if Count(n) == 13 then n'.Node16? else n'.Node48?)
  {
    Index48Drop(n, b);
    n' := Node48(n.prefix, n.index[b := EMPTY], n.slots[n.index[b] := Null], n.count - 1);
    if n'.count == 12 {
      n' := Shrink48(n');
    }
  }

  method EraseNode256(n: Node, b: Byte) returns (n': Node)
    requires n.Node256? && Layout(n) && Child(n, b) != Null
    ensures Removed(n, n', b) && (if Count(n) == 38 then n'.Node48? else n'.Node256?)
  {
    Slots256(n, b, Null);
    n' := Node256(n.prefix, n.slots[b := Null], n.count - 1);
    if n'.count == 37 {
      n' := Shrink256(n');
    }
  }

  /** Removing a child from a node in any layout; with two children left before, the node dissolves. */
  method EraseChild(n: Node, b: Byte) returns (n': Node, ghost only: Byte)
    requires IsInner(n) && Layout(n) && Sized(n) && Child(n, b) != Null
    ensures Count(n) > 2 ==> Removed(n, n', b) && Sized(n')
    ensures Count(n) == 2 ==> only != b && Child(n, only) != Null && n' == Dissolved(n, only, Child(n, only))
                              && forall x: Byte :: Child(n, x) != Null ==> x == b || x == only
  {
    only := 0;
    match n
    case Node4(_, _, _) => n', only := EraseNode4(n, b);
    case Node16(_, _, _) => n' := EraseNode16(n, b);
    case Node48(_, _, _, _) => n' := EraseNode48(n, b);
    case Node256(_, _, _) => n' := EraseNode256(n, b);
  }
}
