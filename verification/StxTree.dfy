/**
 The STX B+ tree: insertion with splits and deletion with merges and shifts, as methods that keep the
 whole verify() invariant. Inner nodes and slots are values; the root, the linked list of leaves and
 the statistics are fields.
 */
module StxTree {
  import opened StxNodes
  import opened StxSteps
  import opened StxErase
  import opened StxBulk
  import opened StxLeafList

  datatype Split = NoSplit | Split(key: int, node: Node)

  // ---------------------------------------------------------------------------------------
  // Slot search
  // ---------------------------------------------------------------------------------------

  method FindLowerKey(keys: seq<int>, key: int) returns (slot: nat)
    ensures IsSlot(keys, key, slot)
  {
    slot := 0;
    while slot < |keys| && keys[slot] < key
      invariant slot <= |keys| && forall i :: 0 <= i < slot ==> keys[i] < key
    {
      slot := slot + 1;
    }
  }

  method FindLowerItem(items: seq<Item>, key: int) returns (slot: nat)
    requires Ascending(items)
    ensures slot == Place(items, key)
  {
    slot := 0;
    while slot < |items| && items[slot].key < key
      invariant slot <= |items| && forall i :: 0 <= i < slot ==> items[i].key < key
    {
      slot := slot + 1;
    }
    assert IsPlace(items, key, slot) by {
      assert forall i :: slot < i < |items| ==> items[slot].key < items[i].key;
    }
    PlaceUnique(items, key, slot);
  }

  // ---------------------------------------------------------------------------------------
  // Growing
  // ---------------------------------------------------------------------------------------

  function Total(n: Node, split: Split): (c: Content) {
    if split.NoSplit? then Of(n) else Plus(Of(n), Of(split.node))
  }

  /** `n'` and its split-off twin hold the items of `n` and one more. */
  predicate Grown(n: Node, h: nat, it: Item, n': Node, split: Split)
    requires Ascending(Items(n))
  {
    && Total(n', split).items == Inserted(Items(n), it)
    && n'.Leaf? == n.Leaf? && Built(n', h) && Slots(n') <= MaxSlots(n')
    && (split.NoSplit? ==> Slots(n) <= Slots(n'))
    && (split.Split? ==> Fitting(n') && Fitting(split.node) && Built(split.node, h) && split.key == Last(n'))
  }

  lemma InsertedLast(s: seq<Item>, it: Item)
    requires Ascending(s) && s != [] && it.key < s[|s| - 1].key
    ensures Inserted(s, it) != [] && Inserted(s, it)[|s|] == s[|s| - 1]
  {
  }

  /** The slots from `slot` on move up to make room. */
  function PutKid(n: Node, slot: nat, key: int, twin: Node): (r: Node)
    requires n.Inner? && slot < |n.kids| == |n.keys| + 1
  {
    Inner(n.keys[..slot] + [key] + n.keys[slot..], n.kids[..slot + 1] + [twin] + n.kids[slot + 1..])
  }

  lemma PutKidIsAdd(n: Node, slot: nat, key: int, twin: Node)
    requires n.Inner? && slot < |n.kids| == |n.keys| + 1
    ensures PutKid(n, slot, key, twin) == AddKid(n, slot, n.kids[slot], key, twin)
  {
    assert n.kids[..slot + 1] + [twin] == n.kids[..slot] + [n.kids[slot], twin];
  }

  // The three placements of a new child around a cut at separator `mid` of the old node.

  /** The two halves and the separator of a node cut at `m`. */
  ghost predicate IsCut(k: Node, m: nat, left: Node, up: int, right: Node) {
    && k.Inner? && left.Inner? && |left.keys| == m < |k.keys| == |k.kids| - 1
    && left == CutLeft(k, m) && up == k.keys[m] && right == CutRight(k, m)
  }

  lemma CutBeforeNew(n: Node, slot: nat, key: int, twin: Node, mid: nat)
    requires n.Inner? && mid < slot < |n.kids| == |n.keys| + 1
    ensures IsCut(PutKid(n, slot, key, twin), mid, CutLeft(n, mid), n.keys[mid],
                  PutKid(CutRight(n, mid), slot - (mid + 1), key, twin))
  {
    var k, r, s := PutKid(n, slot, key, twin), CutRight(n, mid), slot - (mid + 1);
    assert r.keys[..s] == n.keys[mid + 1..slot] && r.keys[s..] == n.keys[slot..];
    assert r.kids[..s + 1] == n.kids[mid + 1..slot + 1] && r.kids[s + 1..] == n.kids[slot + 1..];
    assert k.kids[mid + 1..] == n.kids[mid + 1..slot + 1] + [twin] + n.kids[slot + 1..];
    assert k.keys[mid + 1..] == n.keys[mid + 1..slot] + [key] + n.keys[slot..];
  }

  lemma CutAtNew(n: Node, key: int, twin: Node, mid: nat)
    requires n.Inner? && mid < |n.keys| == |n.kids| - 1
    ensures var l, r := CutLeft(n, mid), CutRight(n, mid);
            IsCut(PutKid(n, mid + 1, key, twin), mid + 1, Inner(l.keys + [n.keys[mid]], l.kids + [r.kids[0]]), key,
                  Inner(r.keys, [twin] + r.kids[1..]))
  {
    var k, slot := PutKid(n, mid + 1, key, twin), mid + 1;
    assert k.kids[..slot + 1] == n.kids[..slot] + [n.kids[slot]];
    assert k.kids[slot + 1..] == [twin] + n.kids[slot + 1..];
    assert k.keys[..slot] == n.keys[..mid] + [n.keys[mid]] && k.keys[slot + 1..] == n.keys[slot..];
  }

  lemma CutAfterNew(n: Node, slot: nat, key: int, twin: Node, mid: nat)
    requires n.Inner? && slot <= mid < |n.keys| == |n.kids| - 1
    ensures IsCut(PutKid(n, slot, key, twin), mid + 1, PutKid(CutLeft(n, mid), slot, key, twin), n.keys[mid],
                  CutRight(n, mid))
  {
    var k, l := PutKid(n, slot, key, twin), CutLeft(n, mid);
    assert l.keys[..slot] == n.keys[..slot] && l.keys[slot..] == n.keys[slot..mid];
    assert l.kids[..slot + 1] == n.kids[..slot + 1] && l.kids[slot + 1..] == n.kids[slot + 1..mid + 1];
    assert k.kids[..mid + 2] == n.kids[..slot + 1] + [twin] + n.kids[slot + 1..mid + 1];
    assert k.keys[..mid + 1] == n.keys[..slot] + [key] + n.keys[slot..mid];
    assert k.kids[mid + 2..] == n.kids[mid + 1..];
    assert k.keys[mid + 2..] == n.keys[mid + 1..];
  }

  /** The separator to split at: the middle one, or the one before if the left half would become the larger. */
  function SplitPoint(count: nat, slot: nat): (mid: nat)
    requires count >= 8
    ensures 0 < mid < count
    ensures var left := if slot <= mid || (slot == mid + 1 && mid < count - mid - 1) then mid + 1 else mid;
            left == if count % 2 == 1 && slot <= count / 2 then count / 2 + 1 else count / 2
  {
    var mid := count / 2;
    if slot <= mid && mid > count - (mid + 1) then mid - 1 else mid
  }

  /** Splitting a full inner node for one more child gives the halves of the overfull node, cut at some `m`. */
  method SplitInner(n: Node, slot: nat, key: int, twin: Node) returns (left: Node, up: int, right: Node)
    requires n.Inner? && IsFull(n) && slot < |n.kids| == |n.keys| + 1
    ensures left.Inner? && INNER_SLOTS / 2 <= |left.keys| <= INNER_SLOTS && INNER_SLOTS / 2 <= INNER_SLOTS - |left.keys|
    ensures |left.keys| == INNER_SLOTS / 2 + if INNER_SLOTS % 2 == 1 && slot <= INNER_SLOTS / 2 then 1 else 0
    ensures IsCut(PutKid(n, slot, key, twin), |left.keys|, left, up, right)
  {
    hide IsCut;
    var mid := SplitPoint(|n.keys|, slot);
    left, right := CutLeft(n, mid), CutRight(n, mid);
    up := n.keys[mid];
    if slot == mid + 1 && mid < |right.keys| {
      CutAtNew(n, key, twin, mid);
      left := Inner(left.keys + [up], left.kids + [right.kids[0]]);
      right := Inner(right.keys, [twin] + right.kids[1..]);
      up := key;
    } else if slot >= mid + 1 {
      CutBeforeNew(n, slot, key, twin, mid);
      right := PutKid(right, slot - (mid + 1), key, twin);
    } else {
      CutAfterNew(n, slot, key, twin, mid);
      left := PutKid(left, slot, key, twin);
    }
  }

  /** An inner node whose routed child grew without splitting. */
  lemma ChildGrew(n: Node, h: nat, it: Item, slot: nat, kid: Node)
    requires Sound(n, h) && n.Inner? && IsSlot(n.keys, it.key, slot) && slot < |n.kids|
    requires Ascending(Items(n.kids[slot])) && Grown(n.kids[slot], h - 1, it, kid, NoSplit)
             && !Has(Items(n.kids[slot]), it.key)
    ensures Grown(n, h, it, Inner(n.keys, n.kids[slot := kid]), NoSplit)
  {
    hide Of, OfAll;
    var n' := Inner(n.keys, n.kids[slot := kid]);
    Route(n, h, it.key, slot);
    var e := Items(n.kids[slot]);
    NotEmpty(n.kids[slot], h - 1);
    if slot < |n.keys| {
      assert e[|e| - 1].key != it.key;
      InsertedLast(e, it);
    }
    AroundChild(n', slot);
    assert n'.kids[..slot] == n.kids[..slot] && n'.kids[slot + 1..] == n.kids[slot + 1..];
    InsertedInMiddle(Before(n, slot), e, After(n, slot), it);
  }

  /** An inner node whose routed child split, before its own capacity is looked at. */
  lemma ChildSplit(n: Node, h: nat, it: Item, slot: nat, kid: Node, split: Split)
    requires Sound(n, h) && n.Inner? && IsSlot(n.keys, it.key, slot) && slot < |n.kids| && split.Split?
    requires Ascending(Items(n.kids[slot])) && Grown(n.kids[slot], h - 1, it, kid, split)
             && !Has(Items(n.kids[slot]), it.key)
    ensures var k := AddKid(n, slot, kid, split.key, split.node);
            Built(k, h) && Items(k) == Inserted(Items(n), it)
  {
    Route(n, h, it.key, slot);
    var e := Items(n.kids[slot]);
    NotEmpty(n.kids[slot], h - 1);
    NotEmpty(split.node, h - 1);
    LastOfAppend(Items(kid), Items(split.node));
    if slot < |n.keys| {
      assert e[|e| - 1].key != it.key;
      InsertedLast(e, it);
    }
    AddKidShape(n, h, slot, kid, split.key, split.node);
    AddKidContent(n, slot, kid, split.key, split.node);
    InsertedInMiddle(Before(n, slot), e, After(n, slot), it);
  }

  /** The overfull node cut in two. */
  lemma CutGrown(n: Node, h: nat, it: Item, k: Node, m: nat)
    requires n.Inner? && k.Inner? && Ascending(Items(n)) && Built(k, h) && Items(k) == Inserted(Items(n), it)
    requires |k.keys| == INNER_SLOTS + 1
    requires INNER_SLOTS / 2 <= m <= INNER_SLOTS && INNER_SLOTS / 2 <= INNER_SLOTS - m
    ensures Grown(n, h, it, CutLeft(k, m), Split(k.keys[m], CutRight(k, m)))
  {
    CutShape(k, h, m);
    CutContent(k, m);
  }

  function PutItem(s: seq<Item>, slot: nat, it: Item): (r: seq<Item>)
    requires slot <= |s|
  {
    s[..slot] + [it] + s[slot..]
  }

  lemma PutInHalf(s: seq<Item>, mid: nat, slot: nat, it: Item)
    requires mid <= |s| && slot <= |s|
    ensures slot >= mid ==> s[..mid] + PutItem(s[mid..], slot - mid, it) == PutItem(s, slot, it)
    ensures slot < mid ==> PutItem(s[..mid], slot, it) + s[mid..] == PutItem(s, slot, it)
  {
    if slot >= mid {
      assert s[mid..][..slot - mid] == s[mid..slot] && s[mid..][slot - mid..] == s[slot..];
    } else {
      assert s[..mid][slot..] == s[slot..mid];
    }
  }

  lemma LeafGrown(leaf: Node, slot: nat, it: Item)
    requires leaf.Leaf? && Ascending(leaf.items) && slot == Place(leaf.items, it.key) && !IsFull(leaf)
             && |leaf.items| <= LEAF_SLOTS
    ensures Grown(leaf, 0, it, Leaf(leaf.id, PutItem(leaf.items, slot, it)), NoSplit)
  {
  }

  lemma LeafSplits(leaf: Node, slot: nat, it: Item, left: Node, key: int, right: Node)
    requires leaf.Leaf? && left.Leaf? && right.Leaf? && Ascending(leaf.items) && IsFull(leaf)
    requires slot == Place(leaf.items, it.key)
    requires var mid := LEAF_SLOTS / 2;
             if slot >= mid
             then left.items == leaf.items[..mid] && right.items == PutItem(leaf.items[mid..], slot - mid, it)
             else left.items == PutItem(leaf.items[..mid], slot, it) && right.items == leaf.items[mid..]
    requires key == left.items[|left.items| - 1].key
    ensures Grown(leaf, 0, it, left, Split(key, right))
  {
    assert left.items + right.items == Inserted(leaf.items, it) by { PutInHalf(leaf.items, LEAF_SLOTS / 2, slot, it); }
    hide Inserted, Place, Grown;
    LeavesGrown(leaf, it, left, key, right);
  }

  lemma LeavesGrown(leaf: Node, it: Item, left: Node, key: int, right: Node)
    requires leaf.Leaf? && left.Leaf? && right.Leaf? && Ascending(leaf.items) && Fitting(left) && Fitting(right)
    requires left.items + right.items == Inserted(leaf.items, it) && left.items != []
             && key == left.items[|left.items| - 1].key
    ensures Grown(leaf, 0, it, left, Split(key, right))
  {
    hide Inserted;
  }

  predicate AllBelow(ids: seq<nat>, bound: nat) {
    forall i :: 0 <= i < |ids| ==> ids[i] < bound
  }

  function IdsBefore(n: Node, slot: nat): (ids: seq<nat>)
    requires n.Inner? && slot <= |n.kids|
  {
    OfAll(n.kids[..slot]).ids
  }

  function IdsAfter(n: Node, slot: nat): (ids: seq<nat>)
    requires n.Inner? && slot < |n.kids|
  {
    OfAll(n.kids[slot + 1..]).ids
  }

  function InnersAround(n: Node, slot: nat): (k: nat)
    requires n.Inner? && slot < |n.kids|
  {
    OfAll(n.kids[..slot]).inners + OfAll(n.kids[slot + 1..]).inners + 1
  }

  lemma IdsAroundChild(n: Node, slot: nat)
    requires n.Inner? && slot < |n.kids|
    ensures Of(n).ids == IdsBefore(n, slot) + Of(n.kids[slot]).ids + IdsAfter(n, slot)
    ensures Of(n).inners == InnersAround(n, slot) + Of(n.kids[slot]).inners
  {
    OfSplit(n.kids, slot, 1);
    assert n.kids[slot..slot + 1] == [n.kids[slot]];
    OfOne(n.kids[slot]);
  }

  lemma IdsAroundNewChild(n: Node, slot: nat, kid: Node)
    requires n.Inner? && slot < |n.kids|
    ensures var n' := Inner(n.keys, n.kids[slot := kid]);
            && Of(n').ids == IdsBefore(n, slot) + Of(kid).ids + IdsAfter(n, slot)
            && Of(n').inners == InnersAround(n, slot) + Of(kid).inners
  {
    var n' := Inner(n.keys, n.kids[slot := kid]);
    assert n'.kids[..slot] == n.kids[..slot] && n'.kids[slot + 1..] == n.kids[slot + 1..];
    IdsAroundChild(n', slot);
  }

  class BTree {
    var root: MaybeNode
    var list: LeafList
    var nextId: nat      // leaf identities are handed out in order
    var itemCount: nat
    var leafCount: nat
    var innerCount: nat

    function Contents(): (c: Content)
      reads this
    {
      if root.NoNode? then NOTHING else Of(root.node)
    }

    function Model(): (s: seq<Item>)
      reads this
    {
      Contents().items
    }

    /** The linked list, the leaf identities and the node counts match the content `c`. */
    predicate Matches(c: Content)
      reads this
    {
      Chained(list, c.ids) && AllBelow(c.ids, nextId) && leafCount == |c.ids| && innerCount == c.inners
    }

    ghost predicate Valid()
      reads this
    {
      && (root.Some? ==> Slots(root.node) >= 1 && exists h :: Sound(root.node, h))
      && Matches(Contents()) && itemCount == |Model()|
    }

    constructor ()
      ensures Valid() && Model() == []
    {
      root, list, nextId, itemCount, leafCount, innerCount := NoNode, NO_LEAVES, 0, 0, 0, 0;
    }

    /** Room for the content of the subtree between the leaves `pre` and `post`, with the counts of everything else. */
    predicate Around(c: Content, pre: seq<nat>, post: seq<nat>, inners: nat)
      reads this
    {
      Matches(Content([], pre + c.ids + post, inners + c.inners))
    }

    /** A full leaf split in the middle; the new leaf goes behind it in the list. */
    method SplitLeaf(leaf: Node, ghost pre: seq<nat>, ghost post: seq<nat>, ghost inners: nat)
      returns (left: Node, right: Node)
      requires leaf.Leaf? && IsFull(leaf) && Around(Of(leaf), pre, post, inners)
      modifies this`list, this`nextId, this`leafCount
      ensures left == Leaf(leaf.id, leaf.items[..LEAF_SLOTS / 2])
              && right == Leaf(old(nextId), leaf.items[LEAF_SLOTS / 2..])
      ensures Around(Plus(Of(left), Of(right)), pre, post, inners)
    {
      var mid := |leaf.items| / 2;
      var id := nextId;
      left, right := Leaf(leaf.id, leaf.items[..mid]), Leaf(id, leaf.items[mid..]);
      TwinLinked(list, pre, leaf.id, id, post);
      hide Chained, InsertAfter, AllBelow;
      nextId, leafCount := nextId + 1, leafCount + 1;
      list := InsertAfter(list, leaf.id, id);
    }

    method InsertIntoLeaf(leaf: Node, it: Item, ghost pre: seq<nat>, ghost post: seq<nat>, ghost inners: nat)
      returns (inserted: bool, n': Node, split: Split)
      requires leaf.Leaf? && Ascending(leaf.items) && |leaf.items| <= LEAF_SLOTS && Around(Of(leaf), pre, post, inners)
      modifies this`list, this`nextId, this`leafCount
      ensures inserted <==> !Has(leaf.items, it.key)
      ensures !inserted ==> n' == leaf && split == NoSplit
      ensures inserted ==> Grown(leaf, 0, it, n', split)
      ensures Around(Total(n', split), pre, post, inners)
    {
      var slot := FindLowerItem(leaf.items, it.key);
      HasAtPlace(leaf.items, it.key);
      if slot < |leaf.items| && leaf.items[slot].key == it.key {
        return false, leaf, NoSplit;
      }
      inserted := true;
      if IsFull(leaf) {
        n', split := InsertIntoFullLeaf(leaf, slot, it, pre, post, inners);
      } else {
        n', split := Leaf(leaf.id, PutItem(leaf.items, slot, it)), NoSplit;
        LeafGrown(leaf, slot, it);
      }
    }

    method InsertIntoFullLeaf(leaf: Node, slot: nat, it: Item, ghost pre: seq<nat>, ghost post: seq<nat>,
                              ghost inners: nat)
      returns (n': Node, split: Split)
      requires leaf.Leaf? && IsFull(leaf) && Ascending(leaf.items) && slot == Place(leaf.items, it.key)
      requires Around(Of(leaf), pre, post, inners)
      modifies this`list, this`nextId, this`leafCount
      ensures Grown(leaf, 0, it, n', split) && Around(Total(n', split), pre, post, inners)
    {
      hide Grown, Chained;
      var left, right := SplitLeaf(leaf, pre, post, inners);
      ghost var c := Plus(Of(left), Of(right));
      var mid := |left.items|;
      var key := left.items[mid - 1].key;
      if slot >= mid {
        right := Leaf(right.id, PutItem(right.items, slot - mid, it));
      } else {
        left := Leaf(left.id, PutItem(left.items, slot, it));
        if slot == |left.items| - 1 {
          key := it.key;
        }
      }
      LeafSplits(leaf, slot, it, left, key, right);
      n', split := left, Split(key, right);
      assert Total(n', split).ids == c.ids && Total(n', split).inners == c.inners;
    }

    /** Insertion below `n`; `pre` and `post` are the leaves on both sides, `inners` the inner nodes elsewhere. */
    method InsertDescend(n: Node, it: Item, ghost h: nat, ghost pre: seq<nat>, ghost post: seq<nat>, ghost inners: nat)
      returns (inserted: bool, n': Node, split: Split)
      requires Sound(n, h) || (n.Leaf? && n.items == [] && h == 0)
      requires Around(Of(n), pre, post, inners)
      modifies this`list, this`nextId, this`leafCount, this`innerCount
      decreases h
      ensures inserted <==> !Has(Items(n), it.key)
      ensures !inserted ==> n' == n && split == NoSplit
      ensures inserted ==> Grown(n, h, it, n', split)
      ensures Around(Total(n', split), pre, post, inners)
    {
      if n.Leaf? {
        inserted, n', split := InsertIntoLeaf(n, it, pre, post, inners);
        return;
      }
      var slot := FindLowerKey(n.keys, it.key);
      Route(n, h, it.key, slot);
      HasInMiddle(Before(n, slot), Items(n.kids[slot]), After(n, slot), it.key);
      IdsAroundChild(n, slot);
      ghost var a, b, around := IdsBefore(n, slot), IdsAfter(n, slot), inners + InnersAround(n, slot);
      Regroup(pre, a, Of(n.kids[slot]).ids, b, post);
      var kid, childSplit;
      inserted, kid, childSplit := InsertDescend(n.kids[slot], it, h - 1, pre + a, b + post, around);
      if childSplit.NoSplit? {
        n', split := Inner(n.keys, n.kids[slot := kid]), NoSplit;
        IdsAroundNewChild(n, slot, kid);
        Regroup(pre, a, Of(kid).ids, b, post);
        if inserted {
          ChildGrew(n, h, it, slot, kid);
        } else {
          assert n.kids[slot := kid] == n.kids;
        }
      } else {
        n', split := AddChild(n, it, h, slot, kid, childSplit, pre, post, inners);
      }
    }

    /** A split child is added to its parent, which splits in turn if it is full. */
    method AddChild(n: Node, it: Item, ghost h: nat, slot: nat, kid: Node, childSplit: Split,
                    ghost pre: seq<nat>, ghost post: seq<nat>, ghost inners: nat)
      returns (n': Node, split: Split)
      requires Sound(n, h) && n.Inner? && IsSlot(n.keys, it.key, slot) && childSplit.Split?
      requires Ascending(Items(n.kids[slot])) && !Has(Items(n.kids[slot]), it.key)
      requires Grown(n.kids[slot], h - 1, it, kid, childSplit)
      requires Around(Total(kid, childSplit), pre + IdsBefore(n, slot), IdsAfter(n, slot) + post,
                      inners + InnersAround(n, slot))
      modifies this`innerCount
      ensures Grown(n, h, it, n', split) && Around(Total(n', split), pre, post, inners)
    {
      hide Chained, AllBelow, Of, OfAll;
      var n1 := Inner(n.keys, n.kids[slot := kid]);
      ghost var k := AddKid(n, slot, kid, childSplit.key, childSplit.node);
      assert k == AddKid(n1, slot, kid, childSplit.key, childSplit.node) by {
        assert n1.kids[..slot] == n.kids[..slot] && n1.kids[slot + 1..] == n.kids[slot + 1..];
      }
      PutKidIsAdd(n1, slot, childSplit.key, childSplit.node);
      ChildSplit(n, h, it, slot, kid, childSplit);
      AddKidContent(n, slot, kid, childSplit.key, childSplit.node);
      Regroup(pre, IdsBefore(n, slot), Total(kid, childSplit).ids, IdsAfter(n, slot), post);
      assert Around(Of(k), pre, post, inners);
      if IsFull(n1) {
        var left, up, right := SplitInner(n1, slot, childSplit.key, childSplit.node);
        ghost var m := |left.keys|;
        innerCount := innerCount + 1;
        CutGrown(n, h, it, k, m);
        CutContent(k, m);
        n', split := left, Split(up, right);
      } else {
        n', split := PutKid(n1, slot, childSplit.key, childSplit.node), NoSplit;
      }
    }

    /** Adds the item unless its key is there, and keeps the invariant. */
    method Insert(key: int, val: int) returns (inserted: bool)
      requires Valid()
      modifies this
      ensures Valid()
      ensures inserted <==> !Has(old(Model()), key)
      ensures Ascending(old(Model()))
      ensures Model() == if inserted then Inserted(old(Model()), Item(key, val)) else old(Model())
    {
      if root.NoNode? {
        AllocateRoot();
      }
      ghost var h := if root.node.Leaf? then 0 else var h :| Sound(root.node, h); h;
      inserted := InsertStart(Item(key, val), h);
    }

    method InsertStart(it: Item, ghost h: nat) returns (inserted: bool)
      requires root.Some? && Matches(Of(root.node)) && itemCount == |Items(root.node)|
      requires (Sound(root.node, h) && Slots(root.node) >= 1) || (root.node.Leaf? && root.node.items == [] && h == 0)
      modifies this
      ensures Valid()
      ensures inserted <==> !Has(old(Items(root.node)), it.key)
      ensures Model() == if inserted then Inserted(old(Items(root.node)), it) else old(Items(root.node))
    {
      hide OfAll, Built, Chained, AllBelow, Grown, Inserted;
      var n := root.node;
      NothingAround(Of(n).ids);
      var n', split;
      inserted, n', split := InsertDescend(n, it, h, [], [], 0);
      NothingAround(Total(n', split).ids);
      if inserted {
        GrowRoot(n, it, n', split, h);
      } else {
        SetRoot(n', h);
      }
    }

    /** The root was changed or split; in the latter case the tree gets one level higher. */
    method GrowRoot(n: Node, it: Item, n': Node, split: Split, ghost h: nat)
      requires Ascending(Items(n)) && !Has(Items(n), it.key) && Grown(n, h, it, n', split) && (n.Leaf? || Slots(n) >= 1)
      requires Matches(Total(n', split)) && itemCount == |Items(n)|
      modifies this`root, this`itemCount, this`innerCount
      ensures Valid() && Model() == Inserted(Items(n), it)
    {
      NewRoot(h, n, it, n', split);
      itemCount := itemCount + 1;
      if split.NoSplit? {
        SetRoot(n', h);
      } else {
        innerCount := innerCount + 1;
        SetRoot(Inner([split.key], [n', split.node]), h + 1);
      }
    }

    method SetRoot(n: Node, ghost h: nat)
      requires Sound(n, h) && Slots(n) >= 1 && Matches(Of(n)) && itemCount == |Items(n)|
      modifies this`root
      ensures root == Some(n) && Valid()
    {
      root := Some(n);
    }

    method AllocateRoot()
      requires Valid() && root.NoNode?
      modifies this
      ensures root.Some? && root.node.Leaf? && root.node.items == []
      ensures Matches(Of(root.node)) && itemCount == old(itemCount)
    {
      root := Some(Leaf(nextId, []));
      AppendOk(list, [], nextId);
      list := Append(list, nextId);
      nextId, leafCount := nextId + 1, leafCount + 1;
      assert [] + [root.node.id] == [root.node.id];
    }

    // -------------------------------------------------------------------------------------
    // Deletion
    // -------------------------------------------------------------------------------------

    /** Leaf `right` is emptied into its left neighbour and freed. */
    method Unlink(left: nat, right: nat, ghost a: seq<nat>, ghost b: seq<nat>, ghost inners: nat)
      requires Matches(Content([], a + [left, right] + b, inners))
      modifies this`list, this`leafCount
      ensures Matches(Content([], a + [left] + b, inners))
    {
      ghost var ids := a + [left, right] + b;
      assert ids[|a|] == left && ids[|a| + 1] == right;
      RemoveAfterOk(list, ids, |a|);
      list, leafCount := RemoveAfter(list, left, right), leafCount - 1;
      assert ids[..|a| + 1] + ids[|a| + 2..] == a + [left] + b;
      hide Chained;
      assert forall i :: 0 <= i < |a + [left] + b| ==> (a + [left] + b)[i] == ids[if i <= |a| then i else i + 1];
    }

    /** The children `i` and `i + 1` become one; the right one leaves the tree and, if a leaf, the list. */
    method Merge(n: Node, ghost h: nat, ghost s: nat, i: nat, ghost pre: seq<nat>, ghost post: seq<nat>,
                 ghost inners: nat)
      returns (n': Node)
      requires BuiltBut(n, h, s) && i < |n.keys| && (s == i || s == i + 1)
      requires IsUnderflow(n.kids[s]) && MaxSlots(n.kids[s]) / 2 <= Slots(n.kids[s]) + 1
      requires IsFew(n.kids[if s == i then i + 1 else i]) && Around(Of(n), pre, post, inners)
      modifies this`list, this`leafCount, this`innerCount
      ensures Built(n', h) && n'.Inner? && Slots(n') == Slots(n) - 1 && Items(n') == Items(n)
      ensures Around(Of(n'), pre, post, inners)
    {
      hide Chained, AllBelow, OfAll, Built;
      JoinIsFitting(n, h, s, i);
      JoinAtContent(n, i);
      var l, sep, r := n.kids[i], n.keys[i], n.kids[i + 1];
      var joined := Join(l, sep, r);
      n' := Inner(n.keys[..i] + n.keys[i + 1..], n.kids[..i] + [joined] + n.kids[i + 2..]);
      if l.Leaf? {
        ghost var a, b := OfAll(n.kids[..i]).ids, OfAll(n.kids[i + 2..]).ids;
        Regroup(pre, a, [l.id, r.id], b, post);
        Unlink(l.id, r.id, pre + a, b + post, inners + Of(n).inners);
        Regroup(pre, a, [l.id], b, post);
        if i < |n'.keys| {
          assert n'.keys[i] == joined.items[|joined.items| - 1].key;
          n' := Inner(n'.keys[i := joined.items[|joined.items| - 1].key], n'.kids);
          assert n' == JoinAt(n, i);
        }
      } else {
        innerCount := innerCount - 1;
      }
    }

    /** The parent carries out what its child at `slot` asked for. */
    method Rebalance(n: Node, ghost h: nat, slot: nat, fix: Fix, ghost pre: seq<nat>, ghost post: seq<nat>,
                     ghost inners: nat)
      returns (n': Node)
      requires BuiltBut(n, h, slot) && MaxSlots(n.kids[slot]) / 2 <= Slots(n.kids[slot]) + 1
      requires Asked(n, slot, fix) && Around(Of(n), pre, post, inners)
      modifies this`list, this`leafCount, this`innerCount
      ensures Built(n', h) && n'.Inner? && Slots(n) - 1 <= Slots(n') <= Slots(n) && Items(n') == Items(n)
      ensures Around(Of(n'), pre, post, inners)
    {
      match fix
      case MergeLeft => n' := Merge(n, h, slot, slot - 1, pre, post, inners);
      case MergeRight => n' := Merge(n, h, slot, slot, pre, post, inners);
      case TakeLeft => n' := Even(n, h, slot, slot - 1);
      case TakeRight => n' := Even(n, h, slot, slot);
      case _ => n' := n;
    }

    /** Erases below `n`; `left` and `right` are its neighbours on the same level. */
    method EraseDescend(key: int, n: Node, isRoot: bool, left: MaybeNode, right: MaybeNode, leftNear: bool,
                        rightNear: bool,
                        ghost h: nat, ghost pre: seq<nat>, ghost post: seq<nat>, ghost inners: nat)
      returns (found: bool, n': Node, last: MaybeKey, fix: Fix)
      requires Sound(n, h) && Slots(n) >= 1 && Around(Of(n), pre, post, inners)
      requires Neighbour(left, h) && Neighbour(right, h)
      requires if isRoot then left.NoNode? && right.NoNode?
               else
                 && !IsUnderflow(n) && (leftNear || rightNear)
                 && (leftNear ==> left.Some?) && (rightNear ==> right.Some?)
      modifies this`list, this`leafCount, this`innerCount
      decreases h
      ensures found <==> Has(Items(n), key)
      ensures found ==> Erased(n, h, key, n', last) && fix == Decide(n', isRoot, left, right, leftNear, rightNear)
      ensures !found ==> n' == n
      ensures Around(Of(n'), pre, post, inners)
    {
      hide Chained, AllBelow, OfAll, Decide;
      last, fix, n' := NoKey, Keep, n;
      if n.Leaf? {
        var slot := FindLowerItem(n.items, key);
        HasAtPlace(n.items, key);
        found := slot < |n.items| && n.items[slot].key == key;
        if found {
          n' := Leaf(n.id, n.items[..slot] + n.items[slot + 1..]);
          if slot == |n'.items| && n'.items != [] {
            last := Key(n'.items[|n'.items| - 1].key);
          }
          LeafErased(n, key);
          fix := Decide(n', isRoot, left, right, leftNear, rightNear);
        }
        return;
      }
      var slot := FindLowerKey(n.keys, key);
      Route(n, h, key, slot);
      HasInMiddle(Before(n, slot), Items(n.kids[slot]), After(n, slot), key);
      IdsAroundChild(n, slot);
      ghost var a, b, around := IdsBefore(n, slot), IdsAfter(n, slot), inners + InnersAround(n, slot);
      Regroup(pre, a, Of(n.kids[slot]).ids, b, post);
      var myLeft := if slot > 0 then Some(n.kids[slot - 1]) else Cousin(left, false);
      var myRight := if slot < |n.keys| then Some(n.kids[slot + 1]) else Cousin(right, true);
      var kid, kidLast, kidFix;
      found, kid, kidLast, kidFix :=
        EraseDescend(key, n.kids[slot], false, myLeft, myRight, slot > 0, slot < |n.keys|, h - 1, pre + a, b + post,
                     around);
      if found {
        n', last := EraseInChild(key, n, h, slot, kid, kidLast, kidFix, myLeft, myRight, pre, post, inners);
        fix := Decide(n', isRoot, left, right, leftNear, rightNear);
      }
    }

    /** An item was removed below the child at `slot`: separators are updated and the child's request is met. */
    method EraseInChild(key: int, n: Node, ghost h: nat, slot: nat, kid: Node, kidLast: MaybeKey, kidFix: Fix,
                        ghost myLeft: MaybeNode, ghost myRight: MaybeNode,
                        ghost pre: seq<nat>, ghost post: seq<nat>, ghost inners: nat)
      returns (n': Node, last: MaybeKey)
      requires Sound(n, h) && Slots(n) >= 1 && n.Inner? && IsSlot(n.keys, key, slot)
      requires Has(Items(n), key) && Ascending(Items(n.kids[slot])) && Erased(n.kids[slot], h - 1, key, kid, kidLast)
      requires slot > 0 ==> myLeft == Some(n.kids[slot - 1])
      requires slot < |n.keys| ==> myRight == Some(n.kids[slot + 1])
      requires kidFix == Decide(kid, false, myLeft, myRight, slot > 0, slot < |n.keys|)
      requires Around(Of(kid), pre + IdsBefore(n, slot), IdsAfter(n, slot) + post, inners + InnersAround(n, slot))
      modifies this`list, this`leafCount, this`innerCount
      ensures Erased(n, h, key, n', last) && Around(Of(n'), pre, post, inners)
    {
      hide Chained, AllBelow, Of, OfAll, Decide, Asked, Last, Without;
      KidNotEmpty(n, h, slot, key, kid);
      var n1 := Inner(if kidLast.Key? && slot < |n.keys| then n.keys[slot := kidLast.key]
                      else n.keys, n.kids[slot := kid]);
      last := if kidLast.Key? && slot == |n.keys| then kidLast else NoKey;
      ReadyToFix(n, h, key, slot, kid, kidLast, kidFix, myLeft, myRight);
      IdsAroundNewChild(n, slot, kid);
      Regroup(pre, IdsBefore(n, slot), Of(kid).ids, IdsAfter(n, slot), post);
      SameKids(n1, Inner(n.keys, n.kids[slot := kid]));
      n' := Rebalance(n1, h, slot, kidFix, pre, post, inners);
      ErasedFixed(n, h, key, n1, n', last);
    }

    /** Evens out the children `i` and `i + 1`. */
    method Even(n: Node, ghost h: nat, s: nat, i: nat) returns (n': Node)
      requires BuiltBut(n, h, s) && i < |n.keys| && (s == i || s == i + 1)
      requires IsUnderflow(n.kids[s]) && MaxSlots(n.kids[s]) / 2 <= Slots(n.kids[s]) + 1
      requires !IsFew(n.kids[if s == i then i + 1 else i])
      ensures Built(n', h) && n'.Inner? && Slots(n') == Slots(n) && Of(n') == Of(n)
    {
      hide Of, OfAll, Built;
      var l, sep, r := n.kids[i], n.keys[i], n.kids[i + 1];
      ghost var m := if s == i then Slots(l) + (Slots(r) - Slots(l)) / 2 else Slots(l) - (Slots(l) - Slots(r)) / 2;
      EvenIsFitting(n, h, s, i, m);
      if s == i {
        l, sep, r := ShiftLeft(l, sep, r);
      } else {
        l, sep, r := ShiftRight(l, sep, r);
      }
      n' := Inner(n.keys[i := sep], n.kids[i := l][i + 1 := r]);
      TwoReplaced(n.kids, i, l, r);
    }

    /** Removes the key if it is there, and keeps the invariant. */
    method EraseOne(key: int) returns (found: bool)
      requires Valid()
      modifies this
      ensures Valid()
      ensures found <==> Has(old(Model()), key)
      ensures Ascending(old(Model())) && Model() == Without(old(Model()), key)
    {
      if root.NoNode? {
        return false;
      }
      ghost var h :| Sound(root.node, h);
      found := EraseStart(key, h);
    }

    method EraseStart(key: int, ghost h: nat) returns (found: bool)
      requires root.Some? && Sound(root.node, h) && Slots(root.node) >= 1
      requires Matches(Of(root.node)) && itemCount == |Items(root.node)|
      modifies this
      ensures Valid()
      ensures found <==> Has(old(Items(root.node)), key)
      ensures Model() == Without(old(Items(root.node)), key)
    {
      hide Chained, AllBelow, Of, Built, Decide, Without, Has;
      var n := root.node;
      NothingAround(Of(n).ids);
      var n', last, fix;
      found, n', last, fix := EraseDescend(key, n, true, NoNode, NoNode, false, false, h, [], [], 0);
      NothingAround(Of(n').ids);
      WithoutSize(Items(n), key);
      if found {
        itemCount := itemCount - 1;
        ShrinkRoot(n', fix, h);
      } else {
        SetRoot(n, h);
      }
    }

    /** An empty root leaf is freed; a root with a single child gives way to it. */
    method ShrinkRoot(n: Node, fix: Fix, ghost h: nat)
      requires fix == Decide(n, true, NoNode, NoNode, false, false) && Slots(n) <= MaxSlots(n) && Ascending(Items(n))
      requires Matches(Of(n)) && itemCount == |Items(n)|
      requires if Items(n) == [] then n.Leaf? else Built(n, h)
      modifies this
      ensures Valid() && Model() == Items(n)
    {
      if fix == Keep {
        SetRoot(n, h);
      } else if n.Leaf? {
        list := LeafList(Null, Null, list.links);
        root, leafCount := NoNode, leafCount - 1;
      } else {
        OnlyKid(n, h);
        innerCount := innerCount - 1;
        SetRoot(n.kids[0], h - 1);
      }
    }

    // -------------------------------------------------------------------------------------
    // Bulk loading
    // -------------------------------------------------------------------------------------

    /** Spreads sorted items evenly over as few leaves as can hold them. */
    method LoadLeaves(items: seq<Item>) returns (leaves: seq<Node>, maxKeys: seq<int>)
      requires items != [] && Matches(NOTHING)
      modifies this`list, this`nextId, this`leafCount
      ensures Level(leaves, maxKeys, 0) && |leaves| >= 1 && (|leaves| > 1 ==> AllHalf(leaves))
      ensures OfAll(leaves).items == items && Matches(OfAll(leaves)) && OfAll(leaves).inners == 0
    {
      hide Spreads, NodesFor, OfAll, Of, Chained, Level, AllHalf, AllBelow;
      var count := NodesFor(|items|, LEAF_SLOTS);
      Shares(|items|, LEAF_SLOTS, LEAF_SLOTS / 2);
      ghost var lo := if count == 1 then |items| else LEAF_SLOTS / 2;
      leaves, maxKeys := [], [];
      OfNothing();
      LevelOfNone();
      assert OfAll(leaves) == NOTHING;
      var pos: nat, rest: nat := 0, |items|;
      for i := 0 to count
        invariant |leaves| == i && pos + rest == |items| && Spreads(rest, count - i, lo, LEAF_SLOTS)
        invariant Level(leaves, maxKeys, 0) && (count > 1 ==> AllHalf(leaves))
        invariant OfAll(leaves).items == items[..pos] && Matches(OfAll(leaves)) && OfAll(leaves).inners == 0
      {
        var share := TakeShare(rest, count - i, lo, LEAF_SLOTS);
        assert items[..pos] + items[pos..pos + share] == items[..pos + share];
        leaves, maxKeys := AddLeaf(items[pos..pos + share], leaves, maxKeys);
        pos, rest := pos + share, rest - share;
      }
      NothingLeft(rest, lo, LEAF_SLOTS);
      assert items[..|items|] == items;
    }

    /** A new leaf behind those loaded so far. */
    method AddLeaf(part: seq<Item>, leaves: seq<Node>, maxKeys: seq<int>)
      returns (leaves': seq<Node>, maxKeys': seq<int>)
      requires Level(leaves, maxKeys, 0) && 1 <= |part| <= LEAF_SLOTS && Matches(OfAll(leaves))
               && OfAll(leaves).inners == 0
      modifies this`list, this`nextId, this`leafCount
      ensures Level(leaves', maxKeys', 0) && |leaves'| == |leaves| + 1
      ensures AllHalf(leaves) && |part| >= LEAF_SLOTS / 2 ==> AllHalf(leaves')
      ensures OfAll(leaves').items == OfAll(leaves).items + part && Matches(OfAll(leaves'))
              && OfAll(leaves').inners == 0
    {
      hide OfAll, Chained, Level, AllHalf;
      var leaf := Leaf(nextId, part);
      AppendLeaf(leaf, OfAll(leaves));
      OfAllAppend(leaves, [leaf]);
      OfOne(leaf);
      LevelExtended(leaves, maxKeys, 0, leaf);
      leaves', maxKeys' := leaves + [leaf], maxKeys + [part[|part| - 1].key];
    }

    method AppendLeaf(leaf: Node, ghost c: Content)
      requires leaf.Leaf? && leaf.id == nextId && Matches(c)
      modifies this`list, this`nextId, this`leafCount
      ensures Matches(Plus(c, Of(leaf)))
    {
      AppendOk(list, c.ids, nextId);
      list := Append(list, nextId);
      nextId, leafCount := nextId + 1, leafCount + 1;
    }

    /** Loads a strictly ascending sequence into an empty tree. */
    /** One more level on top. */
    method AddLevel(nodes: seq<Node>, maxKeys: seq<int>, ghost h: nat) returns (parents: seq<Node>, parentMax: seq<int>)
      requires Level(nodes, maxKeys, h) && AllHalf(nodes) && |nodes| >= 2 && Matches(OfAll(nodes))
      modifies this`innerCount
      ensures Level(parents, parentMax, h + 1) && 1 <= |parents| < |nodes| && (|parents| > 1 ==> AllHalf(parents))
      ensures OfAll(parents).items == OfAll(nodes).items && Matches(OfAll(parents))
    {
      hide OfAll, Level, AllHalf, Chained, AllBelow;
      parents, parentMax := BuildLevel(nodes, maxKeys, h);
      innerCount := innerCount + |parents|;
    }

    /** Levels on top of each other until one node is left. */
    method StackLevels(leaves: seq<Node>, keys: seq<int>) returns (top: Node, ghost h: nat)
      requires Level(leaves, keys, 0) && |leaves| >= 1 && (|leaves| > 1 ==> AllHalf(leaves)) && Matches(OfAll(leaves))
      modifies this`innerCount
      ensures Built(top, h) && 1 <= Slots(top) <= MaxSlots(top) && Items(top) == OfAll(leaves).items && Matches(Of(top))
    {
      hide OfAll, Built, Chained, Level, AllHalf, AllBelow;
      var nodes, maxKeys := leaves, keys;
      h := 0;
      while |nodes| != 1
        invariant Level(nodes, maxKeys, h) && |nodes| >= 1 && (|nodes| > 1 ==> AllHalf(nodes))
        invariant OfAll(nodes).items == OfAll(leaves).items && Matches(OfAll(nodes))
        decreases |nodes|
      {
        nodes, maxKeys := AddLevel(nodes, maxKeys, h);
        h := h + 1;
      }
      TopNode(nodes, maxKeys, h);
      top := nodes[0];
    }

    method BulkLoad(items: seq<Item>)
      requires Valid() && root.NoNode? && Ascending(items)
      modifies this
      ensures Valid() && Model() == items
    {
      itemCount := |items|;
      if items != [] {
        hide OfAll, Built, Chained, Level, AllHalf, AllBelow;
        var leaves, maxKeys := LoadLeaves(items);
        var top; ghost var h;
        top, h := StackLevels(leaves, maxKeys);
        SetRoot(top, h);
      }
    }

    /** Looks the key up. */
    method Find(key: int) returns (found: bool, val: int)
      requires Valid()
      ensures found <==> Has(Model(), key)
      ensures found ==> Item(key, val) in Model()
    {
      found, val := false, 0;
      if root.NoNode? {
        return;
      }
      var n := root.node;
      ghost var h :| Sound(n, h);
      ghost var a: seq<Item>, b: seq<Item> := [], [];
      while n.Inner?
        invariant Sound(n, h) && Middle(a, b, key) && Model() == a + Items(n) + b
        decreases h
      {
        var slot := FindLowerKey(n.keys, key);
        Route(n, h, key, slot);
        JoinedMiddle(a, Before(n, slot), Items(n.kids[slot]), After(n, slot), b, key);
        a, b := a + Before(n, slot), After(n, slot) + b;
        n, h := n.kids[slot], h - 1;
      }
      var slot := FindLowerItem(n.items, key);
      HasAtPlace(n.items, key);
      HasInMiddle(a, n.items, b, key);
      if slot < |n.items| && n.items[slot].key == key {
        found, val := true, n.items[slot].val;
        assert n.items[slot] in n.items;
      }
    }
  }

  lemma NewRoot(h: nat, n: Node, it: Item, n': Node, split: Split)
    requires Ascending(Items(n)) && !Has(Items(n), it.key) && Grown(n, h, it, n', split) && (n.Leaf? || Slots(n) >= 1)
    ensures var r := if split.Split? then Inner([split.key], [n', split.node]) else n';
            && Sound(r, if split.Split? then h + 1 else h) && Slots(r) >= 1
            && Of(r).ids == Total(n', split).ids
            && Of(r).inners == Total(n', split).inners + (if split.Split? then 1 else 0)
            && Items(r) == Inserted(Items(n), it) && |Items(r)| == |Items(n)| + 1
  {
    if split.Split? {
      OfTwo(n', split.node);
    }
    InsertedIs(Items(n), it);
  }

  // ---------------------------------------------------------------------------------------
  // Shrinking
  // ---------------------------------------------------------------------------------------

  /** A request the parent can meet. */
  predicate Asked(n: Node, slot: nat, fix: Fix)
    requires n.Inner? && slot < |n.kids| == |n.keys| + 1
  {
    match fix
    case Keep => !IsUnderflow(n.kids[slot])
    case Collapse => false
    case MergeLeft => slot > 0 && IsUnderflow(n.kids[slot]) && IsFew(n.kids[slot - 1])
    case MergeRight => slot < |n.keys| && IsUnderflow(n.kids[slot]) && IsFew(n.kids[slot + 1])
    case TakeLeft => slot > 0 && IsUnderflow(n.kids[slot]) && !IsFew(n.kids[slot - 1])
    case TakeRight => slot < |n.keys| && IsUnderflow(n.kids[slot]) && !IsFew(n.kids[slot + 1])
  }

  predicate Neighbour(n: MaybeNode, h: nat) {
    n.Some? ==> Built(n.node, h) && Slots(n.node) >= 1
  }

  /** A neighbour of the outermost child below a neighbour; on the left, the last child but one is taken. */
  function Cousin(n: MaybeNode, first: bool): (r: MaybeNode) {
    if n.Some? && n.node.Inner? && 1 <= |n.node.keys| == |n.node.kids| - 1
    then Some(n.node.kids[if first then 0 else |n.node.keys| - 1])
    else NoNode
  }

  /** A parent whose child has been erased from can meet the child's request. */
  lemma ReadyToFix(n: Node, h: nat, key: int, slot: nat, kid: Node, last: MaybeKey, fix: Fix, myLeft: MaybeNode,
                   myRight: MaybeNode)
    requires Sound(n, h) && Slots(n) >= 1 && n.Inner? && IsSlot(n.keys, key, slot) && slot < |n.kids|
    requires Ascending(Items(n.kids[slot])) && Erased(n.kids[slot], h - 1, key, kid, last) && Items(kid) != []
    requires slot > 0 ==> myLeft == Some(n.kids[slot - 1])
    requires slot < |n.keys| ==> myRight == Some(n.kids[slot + 1])
    requires fix == Decide(kid, false, myLeft, myRight, slot > 0, slot < |n.keys|)
    ensures var n1 := Updated(n, slot, kid, last);
            && BuiltBut(n1, h, slot) && Items(n1) == Without(Items(n), key)
            && Last(n1) == (if last.Key? && slot == |n.keys| then last.key else Last(n))
            && MaxSlots(kid) / 2 <= Slots(kid) + 1 && Asked(n1, slot, fix)
  {
    ChildErased(n, h, key, slot, kid, last);
    ChildErasedLast(n, h, slot, kid, last, Updated(n, slot, kid, last));
    DecideIsSafe(kid, myLeft, myRight, slot > 0, slot < |n.keys|);
    assert !IsUnderflow(n.kids[slot]);
  }

  lemma SameKids(n: Node, n': Node)
    requires n.Inner? && n'.Inner? && n.kids == n'.kids
    ensures Of(n) == Of(n')
  {
  }

  lemma OnlyKid(n: Node, h: nat)
    requires n.Inner? && Built(n, h) && Slots(n) == 0 && Ascending(Items(n))
    ensures Sound(n.kids[0], h - 1) && Slots(n.kids[0]) >= 1
    ensures Items(n.kids[0]) == Items(n) && Of(n.kids[0]).ids == Of(n).ids && Of(n.kids[0]).inners + 1 == Of(n).inners
  {
    assert n.kids == [n.kids[0]];
    OfOne(n.kids[0]);
  }

  lemma LevelOfNone()
    ensures Level([], [], 0) && AllHalf([])
  {
  }

  lemma TopNode(nodes: seq<Node>, maxKeys: seq<int>, h: nat)
    requires Level(nodes, maxKeys, h) && |nodes| == 1
    ensures OfAll(nodes) == Of(nodes[0]) && Built(nodes[0], h) && 1 <= Slots(nodes[0]) <= MaxSlots(nodes[0])
  {
    OfOne(nodes[0]);
    assert nodes == [nodes[0]];
  }

  lemma AfterOne(pre: seq<nat>, a: nat, b: nat, post: seq<nat>)
    ensures var ids, p := pre + [a] + post, |pre|;
            ids[p] == a && ids[..p + 1] + [b] + ids[p + 1..] == pre + ([a] + [b]) + post
  {
  }

  lemma TwinLinked(list: LeafList, pre: seq<nat>, id: nat, twin: nat, post: seq<nat>)
    requires Chained(list, pre + [id] + post) && AllBelow(pre + [id] + post, twin)
    ensures AllBelow(pre + ([id] + [twin]) + post, twin + 1)
    ensures id in list.links
    ensures list.links[id].next.To? ==> list.links[id].next.id in list.links
    ensures Chained(InsertAfter(list, id, twin), pre + ([id] + [twin]) + post)
  {
    assert forall x :: x in pre + ([id] + [twin]) + post ==> x == twin || x in pre + [id] + post;
    AfterOne(pre, id, twin, post);
    InsertAfterOk(list, pre + [id] + post, |pre|, twin);
    hide Chained, InsertAfter;
  }

  lemma ErasedFixed(n: Node, h: nat, key: int, n1: Node, n': Node, last: MaybeKey)
    requires Sound(n, h) && n.Inner? && n1.Inner? && Slots(n1) == Slots(n) && Items(n1) == Without(Items(n), key)
    requires Last(n1) == if last.Key? then last.key else Last(n)
    requires Built(n', h) && n'.Inner? && Slots(n1) - 1 <= Slots(n') <= Slots(n1) && Items(n') == Items(n1)
    ensures Erased(n, h, key, n', last)
  {
    hide Of, Without, Built;
    NotEmpty(n', h);
  }

  lemma KidNotEmpty(n: Node, h: nat, slot: nat, key: int, kid: Node)
    requires Sound(n, h) && n.Inner? && slot < |n.kids| && Ascending(Items(n.kids[slot]))
    requires Slots(n.kids[slot]) <= Slots(kid) + 1 && n.kids[slot].Leaf? == kid.Leaf?
    requires Items(kid) == [] ==> kid.Leaf?
    ensures Items(kid) != []
  {
    assert !IsUnderflow(n.kids[slot]);
  }

  lemma JoinedMiddle(a: seq<Item>, c: seq<Item>, e: seq<Item>, d: seq<Item>, b: seq<Item>, key: int)
    requires Middle(a, b, key) && Middle(c, d, key)
    ensures Middle(a + c, d + b, key) && a + (c + e + d) + b == (a + c) + e + (d + b)
  {
  }
}
