/**
 The iterator: a stack of nodes with a cursor in each. Cursors are array positions in the two small
 layouts and bytes in the two large ones.
 */
module ArtIter {
  import opened ArtNodes
  import opened ArtLayout
  import opened ArtSlots
  import opened ArtTree
  import A = ArtIndex

  datatype Cursor = Cursor(node: Node, at: nat)

  /** Layouts are in order and no node is without children. */
  ghost predicate Good(n: Node) {
    match n
    case Null => false
    case Leaf(_) => true
    case _ => Layout(n) && Sized(n) && forall b: Byte :: Child(n, b) != Null ==> Good(Child(n, b))
  }

  lemma {:induction false} WellFormedIsGood(n: Node, path: Key)
    requires WellFormed(n, path)
    ensures Good(n)
    decreases n
  {
    if IsInner(n) {
      forall b: Byte | Child(n, b) != Null ensures Good(Child(n, b)) {
        WellFormedIsGood(Child(n, b), path + n.prefix + [b]);
      }
    }
  }

  // ---------------------------------------------------------------------------------------
  // Cursors
  // ---------------------------------------------------------------------------------------

  /** The cursor stands on a child. */
  predicate OnChild(n: Node, at: nat) {
    match n
    case Node4(_, keys, kids) => at < |keys| == |kids|
    case Node16(_, keys, kids) => at < |keys| == |kids|
    case Node48(_, index, slots, _) => at < |index| && index[at] < |slots| && index[at] != EMPTY
    case Node256(_, slots, _) => at < |slots| && slots[at] != Null
    case _ => false
  }

  function ChildAt(n: Node, at: nat): (c: Node)
    requires OnChild(n, at)
  {
    match n
    case Node4(_, _, kids) => kids[at]
    case Node16(_, _, kids) => kids[at]
    case Node48(_, index, slots, _) => slots[index[at]]
    case Node256(_, slots, _) => slots[at]
  }

  function ByteAt(n: Node, at: nat): (b: Byte)
    requires Layout(n) && OnChild(n, at)
  {
    if n.Node4? then n.keys[at] else if n.Node16? then Unflip(n.keys[at]) else at
  }

  lemma AtByte(n: Node, at: nat)
    requires Layout(n) && OnChild(n, at)
    ensures ChildAt(n, at) == Child(n, ByteAt(n, at)) != Null
  {
    if n.Node4? || n.Node16? {
      KidAt(n.keys, n.kids, at);
    }
  }

  /** No child between two bytes. */
  ghost predicate Gap(n: Node, lo: int, hi: int) {
    forall b: Byte :: lo <= b < hi ==> Child(n, b) == Null
  }

  /** In the sorted layouts nothing lies between neighbouring keys, before the first or behind the last. */
  lemma KeyGap(n: Node, at: nat)
    requires Layout(n) && (n.Node4? || n.Node16?) && at <= |n.keys|
    ensures Gap(n, if at == 0 then 0 else ByteAt(n, at - 1) + 1, if at == |n.keys| then 256 else ByteAt(n, at))
  {
    var lo := if n.Node4? then 0 else -128;
    forall b: Byte | (at > 0 ==> n.keys[at - 1] < b + lo) && (at < |n.keys| ==> b + lo < n.keys[at])
      ensures Child(n, b) == Null
    {
      forall i | 0 <= i < |n.keys| ensures n.keys[i] != b + lo {
        assert i < at - 1 ==> n.keys[i] < n.keys[at - 1];
        assert at < i ==> n.keys[at] < n.keys[i];
      }
      KidNone(n.keys, n.kids, b + lo);
    }
  }

  /** The next cursor position with a child, from `from` on; 256 or more if there is none. */
  method Seek(n: Node, from: nat) returns (at: nat, ok: bool)
    requires IsInner(n) && Layout(n) && from <= 256
    requires n.Node4? || n.Node16? ==> from <= |n.keys|
    ensures ok ==> OnChild(n, at) && from <= at < 256
    ensures (n.Node48? || n.Node256?) ==> Gap(n, from, if ok then at else 256)
    ensures (n.Node4? || n.Node16?) ==> at == from && (ok <==> from < |n.keys|)
  {
    at := from;
    if n.Node4? || n.Node16? {
      ok := at < |n.keys|;
    } else {
      while at < 256 && !OnChild(n, at)
        invariant from <= at <= 256 && Gap(n, from, at)
      {
        at := at + 1;
      }
      ok := at < 256;
    }
  }

  // ---------------------------------------------------------------------------------------
  // What is still to come
  // ---------------------------------------------------------------------------------------

  ghost predicate Placed(c: Cursor) {
    IsInner(c.node) && Good(c.node) && OnChild(c.node, c.at)
  }

  /** The entries behind the cursor. */
  ghost function Behind(c: Cursor): (s: seq<Entry>)
    requires Placed(c)
  {
    Range(c.node, ByteAt(c.node, c.at) + 1, 256)
  }

  ghost predicate Stacked(stack: seq<Cursor>) {
    forall i :: 0 <= i < |stack| ==> Placed(stack[i])
  }

  /** The entries behind all cursors, innermost first. */
  ghost function BehindAll(stack: seq<Cursor>): (s: seq<Entry>)
    requires Stacked(stack)
  {
    if stack == [] then [] else Behind(stack[|stack| - 1]) + BehindAll(stack[..|stack| - 1])
  }

  /** The leaf under the innermost cursor is the next one. */
  ghost predicate Ready(stack: seq<Cursor>) {
    Stacked(stack) && (stack != [] ==> ChildAt(stack[|stack| - 1].node, stack[|stack| - 1].at).Leaf?)
  }

  ghost function Pending(stack: seq<Cursor>): (s: seq<Entry>)
    requires Stacked(stack)
  {
    if stack == [] then []
    else Entries(ChildAt(stack[|stack| - 1].node, stack[|stack| - 1].at)) + BehindAll(stack)
  }

  lemma GoodChild(c: Cursor)
    requires Placed(c)
    ensures Good(ChildAt(c.node, c.at)) && ChildAt(c.node, c.at) < c.node
  {
    AtByte(c.node, c.at);
  }

  lemma FirstByte(n: Node, b: Byte)
    requires IsInner(n) && Gap(n, 0, b)
    ensures Entries(n) == Entries(Child(n, b)) + Range(n, b + 1, 256)
  {
    hide Child, Entries, Range;
    RangeNone(n, 0, b);
    EntriesAround(n, b);
  }

  lemma NextByte(n: Node, a: Byte, b: Byte)
    requires IsInner(n) && a < b && Gap(n, a + 1, b)
    ensures Range(n, a + 1, 256) == Entries(Child(n, b)) + Range(n, b + 1, 256)
  {
    hide Child;
    RangeNone(n, a + 1, b);
    RangeSplit(n, a + 1, b, 256);
  }

  /** The first child starts the entries of its node. */
  lemma FirstChild(n: Node, at: nat)
    requires Good(n) && IsInner(n) && OnChild(n, at)
    requires (n.Node48? || n.Node256?) ==> Gap(n, 0, at)
    requires (n.Node4? || n.Node16?) ==> at == 0
    ensures Entries(n) == Entries(ChildAt(n, at)) + Behind(Cursor(n, at))
  {
    hide Child, Entries, Range;
    AtByte(n, at);
    if n.Node4? || n.Node16? {
      KeyGap(n, 0);
    }
    FirstByte(n, ByteAt(n, at));
  }

  /** The next child starts the entries behind the cursor. */
  lemma NextChild(n: Node, at: nat, next: nat)
    requires Good(n) && IsInner(n) && OnChild(n, at) && OnChild(n, next) && at < next
    requires (n.Node48? || n.Node256?) ==> Gap(n, at + 1, next)
    requires (n.Node4? || n.Node16?) ==> next == at + 1
    ensures Behind(Cursor(n, at)) == Entries(ChildAt(n, next)) + Behind(Cursor(n, next))
  {
    hide Child, Entries, Range;
    AtByte(n, next);
    if n.Node4? || n.Node16? {
      KeyGap(n, next);
      assert n.keys[at] < n.keys[next];
    }
    NextByte(n, ByteAt(n, at), ByteAt(n, next));
  }

  lemma NoNextChild(n: Node, at: nat)
    requires Good(n) && IsInner(n) && OnChild(n, at)
    requires (n.Node48? || n.Node256?) ==> Gap(n, at + 1, 256)
    requires (n.Node4? || n.Node16?) ==> at + 1 == |n.keys|
    ensures Behind(Cursor(n, at)) == []
  {
    if n.Node4? || n.Node16? {
      KeyGap(n, at + 1);
    }
    RangeNone(n, ByteAt(n, at) + 1, 256);
  }

  lemma HasChild(n: Node)
    requires Good(n) && IsInner(n)
    ensures !Gap(n, 0, 256) && ((n.Node4? || n.Node16?) ==> |n.keys| > 0)
  {
    CountIsBytes(n);
    assert Gap(n, 0, 256) ==> Bytes(n) == {};
  }

  lemma Pushed(stack: seq<Cursor>, c: Cursor)
    requires Stacked(stack) && Placed(c)
    ensures Stacked(stack + [c]) && BehindAll(stack + [c]) == Behind(c) + BehindAll(stack)
  {
    assert (stack + [c])[..|stack|] == stack;
  }

  // ---------------------------------------------------------------------------------------
  // Moving
  // ---------------------------------------------------------------------------------------

  /** Descends to the smallest leaf below `node`, recording the path. */
  method MinimumRecordPath(stack: seq<Cursor>, node: Node) returns (stack': seq<Cursor>)
    requires Stacked(stack) && (node == Null || Good(node))
    requires node == Null ==> stack == []
    requires node != Null && node.Leaf? && stack != [] ==>
             node == ChildAt(stack[|stack| - 1].node, stack[|stack| - 1].at)
    ensures Stacked(stack')
    ensures node == Null || node.Leaf? ==> stack' == stack
    ensures node != Null && IsInner(node) ==> Ready(stack') && Pending(stack') == Entries(node) + BehindAll(stack)
    decreases node
  {
    hide Layout, Sized, Child, Entries, Range;
    stack' := stack;
    if node == Null || node.Leaf? {
      return;
    }
    assert Layout(node);
    HasChild(node);
    var at, ok := Seek(node, 0);
    var c := Cursor(node, at);
    FirstChild(node, at);
    GoodChild(c);
    Pushed(stack, c);
    var child := ChildAt(node, at);
    stack' := MinimumRecordPath(stack + [c], child);
  }

  /** Moves a cursor on to the next child of its node, if there is one. */
  method Advance(c: Cursor) returns (at: nat, ok: bool)
    requires Placed(c)
    ensures ok ==> Placed(Cursor(c.node, at)) && Good(ChildAt(c.node, at)) && ChildAt(c.node, at) != Null
                   && Behind(c) == Entries(ChildAt(c.node, at)) + Behind(Cursor(c.node, at))
    ensures !ok ==> Behind(c) == []
  {
    hide Layout, Sized, Child, Entries, Range;
    CursorBounds(c);
    at, ok := Seek(c.node, c.at + 1);
    if ok {
      NextChild(c.node, c.at, at);
      GoodChild(Cursor(c.node, at));
    } else {
      NoNextChild(c.node, c.at);
    }
  }

  /** Moves the innermost cursor on, leaving nodes that are used up. */
  method NextSlot(stack: seq<Cursor>) returns (stack': seq<Cursor>, node: Node)
    requires Stacked(stack)
    ensures Stacked(stack')
    ensures node == Null ==> stack' == [] && BehindAll(stack) == []
    ensures node != Null ==>
              && Good(node) && stack' != [] && node == ChildAt(stack'[|stack'| - 1].node, stack'[|stack'| - 1].at)
              && BehindAll(stack) == Entries(node) + BehindAll(stack')
  {
    hide Good, OnChild, Entries, Behind, Placed;
    stack' := stack;
    while stack' != []
      invariant Stacked(stack') && BehindAll(stack') == BehindAll(stack)
      decreases |stack'|
    {
      var c, rest := stack'[|stack'| - 1], stack'[..|stack'| - 1];
      var at, ok := Advance(c);
      if ok {
        PlacedOnChild(Cursor(c.node, at));
        node := ChildAt(c.node, at);
        Pushed(rest, Cursor(c.node, at));
        stack' := rest + [Cursor(c.node, at)];
        return;
      }
      stack' := rest;
    }
    node := Null;
  }

  lemma PlacedOnChild(c: Cursor)
    requires Placed(c)
    ensures OnChild(c.node, c.at)
  {
  }

  lemma CursorBounds(c: Cursor)
    requires Placed(c)
    ensures c.at + 1 <= 256 && Layout(c.node) && ((c.node.Node4? || c.node.Node16?) ==> c.at + 1 <= |c.node.keys|)
  {
  }

  class Iter {
    var stack: seq<Cursor>

    constructor ()
      ensures Ready(stack)
    {
      stack := [];
    }

    /** Positions on the first leaf. */
    method Begin(root: Node)
      requires root == Null || WellFormed(root, [])
      modifies this
      ensures Ready(stack) && Pending(stack) == if root != Null && root.Leaf? then [] else Entries(root)
    {
      if root != Null {
        WellFormedIsGood(root, []);
      }
      stack := MinimumRecordPath([], root);
    }

    /** Delivers the leaf under the cursor and moves on; false at the end. */
    method Next() returns (more: bool, e: Entry)
      requires Ready(stack)
      modifies this
      ensures Ready(stack) && (more <==> old(Pending(stack)) != []) && (!more ==> Pending(stack) == [])
      ensures more ==> old(Pending(stack)) == [e] + Pending(stack)
    {
      more, e := false, Entry([], 0);
      if stack == [] {
        return;
      }
      var top := stack[|stack| - 1];
      var leaf := ChildAt(top.node, top.at);
      more, e := true, leaf.entry;
      var stack', node := NextSlot(stack);
      var after := MinimumRecordPath(stack', node);
      stack := after;
    }
  }

  /** A whole iteration: every entry exactly once, in order, unless the root itself is a leaf. */
  method Iterate(root: Node) returns (out: seq<Entry>)
    requires root == Null || WellFormed(root, [])
    ensures out == if root != Null && root.Leaf? then [] else Entries(root)
  {
    hide Pending, Entries, WellFormed, Stacked;
    var it := new Iter();
    it.Begin(root);
    ghost var all := Pending(it.stack);
    out := [];
    var more := true;
    while more
      invariant Ready(it.stack) && all == out + Pending(it.stack) && (!more ==> Pending(it.stack) == [])
      decreases |Pending(it.stack)|, more
    {
      var e;
      ghost var before := Pending(it.stack);
      more, e := it.Next();
      if more {
        assert out + before == (out + [e]) + Pending(it.stack);
        out := out + [e];
      }
    }
  }

  // ---------------------------------------------------------------------------------------
  // Which trees are missed
  // ---------------------------------------------------------------------------------------

  lemma {:induction false} HasEntries(n: Node)
    requires Good(n)
    ensures |Entries(n)| >= 1
    decreases n
  {
    if IsInner(n) {
      HasChild(n);
      var b: Byte :| Child(n, b) != Null;
      HasEntries(Child(n, b));
      EntriesAround(n, b);
    }
  }

  /** An inner node has two children, and so two entries. */
  lemma TwoEntries(n: Node)
    requires Good(n) && IsInner(n)
    ensures |Entries(n)| >= 2
  {
    var lo, hi := TwoChildren(n);
    HasEntries(Child(n, lo));
    HasEntries(Child(n, hi));
    EntriesAround(n, lo);
    var e := Entries(Child(n, hi))[0];
    InRange(n, lo + 1, 256, e);
    assert e in Entries(Child(n, hi));
  }

  lemma TwoChildren(n: Node) returns (lo: Byte, hi: Byte)
    requires Good(n) && IsInner(n)
    ensures lo < hi && Child(n, lo) != Null && Child(n, hi) != Null
  {
    hide Child;
    CountIsBytes(n);
    var b: Byte :| b in Bytes(n);
    assert |Bytes(n) - {b}| >= 1;
    var c: Byte :| c in Bytes(n) - {b};
    lo, hi := if b < c then b else c, if b < c then c else b;
  }

  /** The root is a leaf exactly if there is one item. */
  lemma LeafRootIff(t: A.Art)
    requires t.Valid()
    ensures t.root.Leaf? <==> t.numItems == 1
  {
    if t.root != Null {
      WellFormedIsGood(t.root, []);
      if IsInner(t.root) {
        TwoEntries(t.root);
      }
    }
  }

  /** The iteration over an index: all entries in order, and none if there is just one. */
  method IterateAll(t: A.Art) returns (out: seq<Entry>)
    requires t.Valid()
    ensures out == if t.numItems == 1 then [] else t.Model()
  {
    LeafRootIff(t);
    out := Iterate(t.root);
  }

  /** An index with one entry, which iterating misses. */
  method IterateOne(key: Key, value: nat) returns (t: A.Art, out: seq<Entry>)
    requires |key| == KEY_LENGTH
    ensures t.Valid() && t.Model() == [Entry(key, value)] && out == []
  {
    t := new A.Art();
    t.Insert(key, value);
    out := IterateAll(t);
  }
}
