/**
 Adding and removing children in the four layouts, growing to the next one and shrinking to the one
 before. Every step is stated by the children it leaves at each byte.
 */
module ArtLayout {
  import opened ArtNodes

  // ---------------------------------------------------------------------------------------
  // Sorted key arrays
  // ---------------------------------------------------------------------------------------

  function Put<T>(s: seq<T>, pos: nat, x: T): (r: seq<T>)
    requires pos <= |s|
  {
    seq(|s| + 1, i requires 0 <= i < |s| + 1 => if i < pos then s[i] else if i == pos then x else s[i - 1])
  }

  function Drop<T>(s: seq<T>, pos: nat): (r: seq<T>)
    requires pos < |s|
  {
    seq(|s| - 1, i requires 0 <= i < |s| - 1 => if i < pos then s[i] else s[i + 1])
  }

  lemma PutKids(keys: seq<int>, kids: seq<Node>, cap: nat, lo: int, pos: nat, k: int, c: Node)
    requires KeysOk(keys, kids, cap, lo) && c != Null && pos <= |keys| < cap && lo <= k < lo + 256
    requires (pos > 0 ==> keys[pos - 1] < k) && (pos < |keys| ==> k < keys[pos])
    ensures KeysOk(Put(keys, pos, k), Put(kids, pos, c), cap, lo)
  {
  }

  lemma PutKid(keys: seq<int>, kids: seq<Node>, pos: nat, k: int, c: Node, y: int)
    requires pos <= |keys| == |kids| && Ascending(keys) && Ascending(Put(keys, pos, k))
    ensures Kid(Put(keys, pos, k), Put(kids, pos, c), y) == if y == k then c else Kid(keys, kids, y)
  {
    var keys', kids' := Put(keys, pos, k), Put(kids, pos, c);
    if y == k {
      KidAt(keys', kids', pos);
    } else if y in keys {
      var i :| 0 <= i < |keys| && keys[i] == y;
      KidAt(keys, kids, i);
      KidAt(keys', kids', if i < pos then i else i + 1);
    } else {
      KidNone(keys, kids, y);
      KidNone(keys', kids', y);
    }
  }

  lemma DropKid(keys: seq<int>, kids: seq<Node>, pos: nat, y: int)
    requires pos < |keys| == |kids| && Ascending(keys) && Ascending(Drop(keys, pos))
    ensures Kid(Drop(keys, pos), Drop(kids, pos), y) == if y == keys[pos] then Null else Kid(keys, kids, y)
  {
    var keys', kids' := Drop(keys, pos), Drop(kids, pos);
    if y != keys[pos] && y in keys {
      var i :| 0 <= i < |keys| && keys[i] == y;
      KidAt(keys, kids, i);
      KidAt(keys', kids', if i < pos then i else i - 1);
    } else {
      assert y !in keys' by {
        forall j | 0 <= j < |keys'| ensures keys'[j] != y {
          assert keys'[j] == keys[if j < pos then j else j + 1];
        }
      }
      KidNone(keys', kids', y);
      if y != keys[pos] {
        KidNone(keys, kids, y);
      }
    }
  }

  // ---------------------------------------------------------------------------------------
  // Between four and sixteen
  // ---------------------------------------------------------------------------------------

  function Shifted(keys: seq<int>, d: int): (r: seq<int>) {
    seq(|keys|, i requires 0 <= i < |keys| => keys[i] + d)
  }

  lemma ShiftedKid(keys: seq<int>, kids: seq<Node>, d: int, y: int)
    requires Ascending(keys) && |keys| == |kids|
    ensures Ascending(Shifted(keys, d)) && Kid(Shifted(keys, d), kids, y + d) == Kid(keys, kids, y)
  {
    var keys' := Shifted(keys, d);
    if y in keys {
      var i :| 0 <= i < |keys| && keys[i] == y;
      KidAt(keys, kids, i);
      KidAt(keys', kids, i);
    } else {
      KidNone(keys, kids, y);
      KidNone(keys', kids, y + d);
    }
  }

  /** Growing flips the sign bits of all keys. */
  lemma Grow4(n: Node)
    requires n.Node4? && Layout(n)
    ensures var n' := Node16(n.prefix, Shifted(n.keys, -128), n.kids); Layout(n') && SameKids(n, n')
  {
    forall x: Byte ensures Child(Node16(n.prefix, Shifted(n.keys, -128), n.kids), x) == Child(n, x) {
      ShiftedKid(n.keys, n.kids, -128, x);
    }
  }

  lemma Shrink16(n: Node)
    requires n.Node16? && Layout(n) && |n.keys| <= 4
    ensures var n' := Node4(n.prefix, Shifted(n.keys, 128), n.kids); Layout(n') && SameKids(n, n')
  {
    forall x: Byte ensures Child(Node4(n.prefix, Shifted(n.keys, 128), n.kids), x) == Child(n, x) {
      ShiftedKid(n.keys, n.kids, 128, Flip(x));
    }
  }

  // ---------------------------------------------------------------------------------------
  // Forty-eight slots behind an index
  // ---------------------------------------------------------------------------------------

  lemma BytesPut(n: Node, n': Node, b: Byte, c: Node)
    requires Differs(n, n', b, c) && Child(n, b) == Null && c != Null
    ensures Bytes(n') == Bytes(n) + {b} && |Bytes(n')| == |Bytes(n)| + 1
  {
    hide Child;
    assert b !in Bytes(n);
    forall x: Byte ensures x in Bytes(n') <==> x in Bytes(n) + {b} {
    }
    assert Bytes(n') == Bytes(n) + {b};
  }

  lemma BytesDrop(n: Node, n': Node, b: Byte)
    requires Differs(n, n', b, Null) && Child(n, b) != Null
    ensures Bytes(n') == Bytes(n) - {b} && |Bytes(n')| == |Bytes(n)| - 1
  {
    hide Child;
    assert b in Bytes(n);
    forall x: Byte ensures x in Bytes(n') <==> x in Bytes(n) - {b} {
    }
    assert Bytes(n') == Bytes(n) - {b};
  }

  lemma BytesSame(n: Node, n': Node)
    requires SameKids(n, n')
    ensures Bytes(n') == Bytes(n)
  {
  }

  function Used(index: seq<nat>, k: nat): (s: set<int>)
    requires |index| == 256
  {
    set b | 0 <= b < 256 && index[b] < k
  }

  lemma UsedStep(index: seq<nat>, slots: seq<Node>, k: nat, b: int)
    requires IndexOk(index, slots) && 0 < k <= EMPTY && 0 <= b < 256 && index[b] == k - 1
    ensures b !in Used(index, k - 1) && Used(index, k) == Used(index, k - 1) + {b}
  {
    forall x | 0 <= x < 256 && index[x] == k - 1 ensures x == b {
      assert index[x] == index[b];
    }
  }

  /** If the first `k` slots are all taken, `k` bytes lead to them. */
  lemma {:induction false} SlotsTaken(index: seq<nat>, slots: seq<Node>, k: nat)
    requires IndexOk(index, slots) && k <= EMPTY && forall i :: 0 <= i < k ==> slots[i] != Null
    ensures |Used(index, k)| == k
  {
    if k == 0 {
      assert Used(index, 0) == {};
    } else {
      SlotsTaken(index, slots, k - 1);
      assert slots[k - 1] != Null && k - 1 in index;
      var b :| 0 <= b < 256 && index[b] == k - 1;
      UsedStep(index, slots, k, b);
    }
  }

  lemma FreeSlot(n: Node)
    requires n.Node48? && Layout(n) && n.count < EMPTY
    ensures exists i :: 0 <= i < EMPTY && n.slots[i] == Null
  {
    if forall i :: 0 <= i < EMPTY ==> n.slots[i] != Null {
      SlotsTaken(n.index, n.slots, EMPTY);
      var u := Used(n.index, EMPTY);
      ShiftedSize(Bytes(n), u, 0);
    }
  }

  lemma Index48Put(n: Node, b: Byte, pos: nat, c: Node)
    requires n.Node48? && Layout(n) && Child(n, b) == Null && pos < EMPTY && n.slots[pos] == Null && c != Null
    ensures var n' := Node48(n.prefix, n.index[b := pos], n.slots[pos := c], n.count + 1);
            Layout(n') && Differs(n, n', b, c)
  {
    var n' := Node48(n.prefix, n.index[b := pos], n.slots[pos := c], n.count + 1);
    assert n.index[b] == EMPTY;
    forall i | 0 <= i < EMPTY && n'.slots[i] != Null ensures i in n'.index {
      StillIndexed(n, b, pos, i);
    }
    assert Differs(n, n', b, c) by { Index48PutChild(n, b, pos, c); }
    BytesPut(n, n', b, c);
  }

  lemma StillIndexed(n: Node, b: Byte, pos: nat, i: nat)
    requires n.Node48? && Layout(n) && n.index[b] == EMPTY && pos < EMPTY && i < EMPTY
             && (i == pos || n.slots[i] != Null)
    ensures i in n.index[b := pos]
  {
    var index := n.index[b := pos];
    if i == pos {
      assert index[b] == i;
    } else {
      var x :| 0 <= x < 256 && n.index[x] == i;
      assert index[x] == i;
    }
  }

  lemma Index48PutChild(n: Node, b: Byte, pos: nat, c: Node)
    requires n.Node48? && Layout(n) && Child(n, b) == Null && pos < EMPTY && n.slots[pos] == Null && c != Null
    ensures Differs(n, Node48(n.prefix, n.index[b := pos], n.slots[pos := c], n.count + 1), b, c)
  {
    forall x: Byte ensures n.index[x] != pos {
    }
  }

  lemma Index48DropChild(n: Node, b: Byte, count: nat)
    requires n.Node48? && Layout(n) && Child(n, b) != Null
    ensures Differs(n, Node48(n.prefix, n.index[b := EMPTY], n.slots[n.index[b] := Null], count), b, Null)
  {
    forall x: Byte | x != b ensures n.index[x] == EMPTY || n.index[x] != n.index[b] {
    }
  }

  lemma Index48Drop(n: Node, b: Byte)
    requires n.Node48? && Layout(n) && Child(n, b) != Null
    ensures n.count > 0
    ensures var n' := Node48(n.prefix, n.index[b := EMPTY], n.slots[n.index[b] := Null], n.count - 1);
            Layout(n') && Differs(n, n', b, Null)
  {
    var pos := n.index[b];
    assert b in Bytes(n);
    var n' := Node48(n.prefix, n.index[b := EMPTY], n.slots[pos := Null], n.count - 1);
    forall i | 0 <= i < EMPTY && n'.slots[i] != Null ensures i in n'.index {
      var x :| 0 <= x < 256 && n.index[x] == i;
      assert n'.index[x] == i;
    }
    assert Differs(n, n', b, Null) by { Index48DropChild(n, b, n.count - 1); }
    BytesDrop(n, n', b);
  }

  lemma Slots256(n: Node, b: Byte, c: Node)
    requires n.Node256? && Layout(n) && (Child(n, b) == Null <==> c != Null)
    ensures c == Null ==> n.count > 0
    ensures var n' := Node256(n.prefix, n.slots[b := c], if c != Null then n.count + 1 else n.count - 1);
            Layout(n') && Differs(n, n', b, c)
  {
    assert c == Null ==> b in Bytes(n);
    var n' := Node256(n.prefix, n.slots[b := c], if c != Null then n.count + 1 else n.count - 1);
    if c != Null {
      BytesPut(n, n', b, c);
    } else {
      BytesDrop(n, n', b);
    }
  }

  // ---------------------------------------------------------------------------------------
  // Growing and shrinking loops
  // ---------------------------------------------------------------------------------------

  method Grow16(n: Node) returns (n': Node)
    requires n.Node16? && Layout(n)
    ensures n'.Node48? && Layout(n') && n'.prefix == n.prefix && SameKids(n, n') && n'.count == |n.keys|
  {
    var index: seq<nat> := seq(256, _ => EMPTY);
    for i := 0 to |n.keys|
      invariant |index| == 256
      invariant forall b: Byte :: index[b] == EMPTY || (index[b] < i && n.keys[index[b]] == Flip(b))
      invariant forall j :: 0 <= j < i ==> index[Unflip(n.keys[j])] == j
    {
      index := index[Unflip(n.keys[i]) := i];
    }
    n' := Node48(n.prefix, index, n.kids + seq(EMPTY - |n.kids|, _ => Null), |n.keys|);
    Grown16(n, n');
  }

  lemma Grown16(n: Node, n': Node)
    requires n.Node16? && Layout(n) && n'.Node48? && |n'.index| == 256
    requires n'.slots == n.kids + seq(EMPTY - |n.kids|, _ => Null) && n'.count == |n.keys|
    requires forall b: Byte :: n'.index[b] == EMPTY || (n'.index[b] < |n.keys| && n.keys[n'.index[b]] == Flip(b))
    requires forall j :: 0 <= j < |n.keys| ==> n'.index[Unflip(n.keys[j])] == j
    ensures Layout(n') && SameKids(n, n')
  {
    forall i | 0 <= i < EMPTY && n'.slots[i] != Null ensures i in n'.index {
      assert n'.index[Unflip(n.keys[i])] == i;
    }
    forall b: Byte, c: Byte | b < c && n'.index[b] < EMPTY ensures n'.index[b] != n'.index[c] {
      assert Flip(b) != Flip(c);
    }
    forall b | 0 <= b < 256 ensures n'.index[b] <= EMPTY && (n'.index[b] < EMPTY ==> n'.slots[n'.index[b]] != Null) {
      var x: Byte := b;
      assert n'.index[x] == EMPTY || n'.index[x] < |n.keys|;
    }
    assert IndexOk(n'.index, n'.slots);
    forall x: Byte ensures Child(n', x) == Child(n, x) {
      if n'.index[x] != EMPTY {
        KidAt(n.keys, n.kids, n'.index[x]);
      } else {
        forall j | 0 <= j < |n.keys| ensures n.keys[j] != Flip(x) {
          assert n'.index[Unflip(n.keys[j])] == j;
        }
        KidNone(n.keys, n.kids, Flip(x));
      }
    }
    CountIsBytes(n);
    BytesSame(n, n');
  }

  method Grow48(n: Node) returns (n': Node)
    requires n.Node48? && Layout(n)
    ensures n'.Node256? && Layout(n') && n'.prefix == n.prefix && SameKids(n, n') && n'.count == n.count
  {
    var slots: seq<Node> := seq(256, _ => Null);
    for b := 0 to 256
      invariant |slots| == 256
      invariant forall x: Byte :: slots[x] == if x < b then Child(n, x) else Null
    {
      if n.index[b] != EMPTY {
        slots := slots[b := n.slots[n.index[b]]];
      }
    }
    n' := Node256(n.prefix, slots, n.count);
    BytesSame(n, n');
  }

  ghost function Seen(n: Node, b: nat): (s: set<Byte>) {
    set x: Byte | 0 <= x < 256 && x < b && Child(n, x) != Null
  }

  lemma SeenStep(n: Node, b: Byte)
    ensures |Seen(n, b + 1)| == |Seen(n, b)| + (if Child(n, b) != Null then 1 else 0)
    ensures Seen(n, b + 1) <= Bytes(n) && |Seen(n, b + 1)| <= |Bytes(n)|
  {
    hide Child;
    var next := if Child(n, b) != Null then Seen(n, b) + {b} else Seen(n, b);
    forall x: Byte ensures x in Seen(n, b + 1) <==> x in next {
    }
    assert Seen(n, b + 1) == next;
    SubsetSize(Seen(n, b + 1), Bytes(n));
  }

  lemma {:induction false} SubsetSize(s: set<Byte>, t: set<Byte>)
    requires s <= t
    ensures |s| <= |t|
    decreases s
  {
    if s != {} {
      var x :| x in s;
      SubsetSize(s - {x}, t - {x});
    }
  }

  lemma KidAppended(keys: seq<int>, kids: seq<Node>, k: int, c: Node, y: int)
    requires |keys| == |kids| && Ascending(keys) && Ascending(keys + [k])
    ensures Kid(keys + [k], kids + [c], y) == if y == k then c else Kid(keys, kids, y)
  {
    assert keys + [k] == Put(keys, |keys|, k) && kids + [c] == Put(kids, |kids|, c);
    PutKid(keys, kids, |keys|, k, c, y);
  }

  /** The keys and children collected from the bytes below `b`. */
  ghost predicate Collected(n: Node, b: nat, keys: seq<int>, kids: seq<Node>) {
    && |keys| == |kids| == |Seen(n, b)| && Ascending(keys)
    && (forall j :: 0 <= j < |keys| ==> -128 <= keys[j] < b - 128 && kids[j] != Null)
    && (forall x: Byte :: Kid(keys, kids, Flip(x)) == if x < b then Child(n, x) else Null)
  }

  lemma CollectOne(n: Node, b: Byte, keys: seq<int>, kids: seq<Node>, c: Node)
    requires Collected(n, b, keys, kids) && c == Child(n, b)
    ensures c != Null ==> Collected(n, b + 1, keys + [Flip(b)], kids + [c])
    ensures c == Null ==> Collected(n, b + 1, keys, kids)
  {
    hide Child, Kid;
    SeenStep(n, b);
    if c != Null {
      forall x: Byte ensures Kid(keys + [Flip(b)], kids + [c], Flip(x)) == if x < b + 1 then Child(n, x) else Null {
        KidAppended(keys, kids, Flip(b), c, Flip(x));
      }
    }
  }

  method Shrink48(n: Node) returns (n': Node)
    requires n.Node48? && Layout(n) && n.count <= 16
    ensures n'.Node16? && Layout(n') && n'.prefix == n.prefix && SameKids(n, n') && |n'.keys| == n.count
  {
    var keys: seq<int>, kids: seq<Node> := [], [];
    assert Seen(n, 0) == {};
    for b := 0 to 256
      invariant Collected(n, b, keys, kids)
    {
      hide Collected;
      CollectOne(n, b, keys, kids, Child(n, b));
      if n.index[b] != EMPTY {
        keys, kids := keys + [Flip(b)], kids + [n.slots[n.index[b]]];
      }
    }
    assert Seen(n, 256) == Bytes(n);
    n' := Node16(n.prefix, keys, kids);
  }

  /** The children at bytes below `b` have got the first `count` slots. */
  ghost predicate Indexed(n: Node, b: nat, index: seq<nat>, slots: seq<Node>, count: nat) {
    && |index| == 256 && |slots| == EMPTY && count == |Seen(n, b)| && count <= EMPTY
    && (forall x: Byte :: if x < b && Child(n, x) != Null then index[x] < count && slots[index[x]] == Child(n, x)
        else index[x] == EMPTY)
    && (forall x: Byte, y: Byte :: x < y && index[x] < EMPTY ==> index[x] != index[y])
    && (forall i :: 0 <= i < count ==> i in index)
    && (forall i :: count <= i < EMPTY ==> slots[i] == Null)
  }

  lemma IndexOne(n: Node, b: Byte, index: seq<nat>, slots: seq<Node>, count: nat)
    requires n.Node256? && Layout(n) && n.count <= EMPTY && Indexed(n, b, index, slots, count) && n.slots[b] != Null
    requires count < EMPTY && |Seen(n, b + 1)| == count + 1
    ensures Indexed(n, b + 1, index[b := count], slots[count := n.slots[b]], count + 1)
  {
    KeepsIndices(index, index[b := count], b, count);
  }

  method Shrink256(n: Node) returns (n': Node)
    requires n.Node256? && Layout(n) && n.count <= EMPTY
    ensures n'.Node48? && Layout(n') && n'.prefix == n.prefix && SameKids(n, n') && n'.count == n.count
  {
    var index: seq<nat> := seq(256, _ => EMPTY);
    var slots: seq<Node> := seq(EMPTY, _ => Null);
    var count := 0;
    assert Seen(n, 0) == {};
    for b := 0 to 256
      invariant count <= EMPTY && Indexed(n, b, index, slots, count)
    {
      SeenStep(n, b);
      if n.slots[b] != Null {
        IndexOne(n, b, index, slots, count);
        index, slots, count := index[b := count], slots[count := n.slots[b]], count + 1;
      }
    }
    assert Seen(n, 256) == Bytes(n);
    n' := Node48(n.prefix, index, slots, count);
    BytesSame(n, n');
  }

  lemma KeepsIndices(before: seq<nat>, after: seq<nat>, b: nat, count: nat)
    requires |before| == 256 && b < 256 && after == before[b := count] && before[b] == EMPTY && count < EMPTY
    requires forall i :: 0 <= i < count ==> i in before
    ensures forall i :: 0 <= i <= count ==> i in after
  {
    forall i | 0 <= i <= count ensures i in after {
      if i < count {
        assert i in before;
        var x :| 0 <= x < 256 && before[x] == i;
        assert after[x] == i;
      } else {
        assert after[b] == i;
      }
    }
  }
}
