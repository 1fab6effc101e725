/**
 Nodes of the STX B+ tree as values: leaves with sorted key/value slots and an identity, inner nodes
 with separator keys, each equal to the largest key below its left child.
 */
module StxNodes {

  /** The slot counts of leaves and inner nodes are arbitrary numbers of at least eight. */
  type SlotCount = n: nat | n >= 8 witness 8

  const LEAF_SLOTS: SlotCount
  const INNER_SLOTS: SlotCount

  datatype Item = Item(key: int, val: int)

  // A leaf is known to its neighbours in the leaf list by its `id`.
  datatype Node = Leaf(id: nat, items: seq<Item>) | Inner(keys: seq<int>, kids: seq<Node>)

  function Slots(n: Node): (k: nat) { if n.Leaf? then |n.items| else |n.keys| }

  function MaxSlots(n: Node): (k: nat) { if n.Leaf? then LEAF_SLOTS else INNER_SLOTS }

  predicate IsFull(n: Node) { Slots(n) == MaxSlots(n) }

  predicate IsFew(n: Node) { Slots(n) <= MaxSlots(n) / 2 }

  predicate IsUnderflow(n: Node) { Slots(n) < MaxSlots(n) / 2 }

  // ---------------------------------------------------------------------------------------
  // What a subtree holds
  // ---------------------------------------------------------------------------------------

  /** The items and the leaf identities of a subtree in order, and its number of inner nodes. */
  datatype Content = Content(items: seq<Item>, ids: seq<nat>, inners: nat)

  const NOTHING := Content([], [], 0)

  function Plus(a: Content, b: Content): (c: Content) {
    Content(a.items + b.items, a.ids + b.ids, a.inners + b.inners)
  }

  function Of(n: Node): (c: Content) {
    match n
    case Leaf(id, items) => Content(items, [id], 0)
    case Inner(_, kids) => var c := OfAll(kids); c.(inners := c.inners + 1)
  }

  function OfAll(kids: seq<Node>): (c: Content) {
    if kids == [] then NOTHING else Plus(Of(kids[0]), OfAll(kids[1..]))
  }

  function Items(n: Node): (s: seq<Item>) { Of(n).items }

  // Leaf identities to the left and right of a subtree, regrouped around one of its children.
  lemma Regroup(a: seq<nat>, b: seq<nat>, c: seq<nat>, d: seq<nat>, e: seq<nat>)
    ensures a + (b + c + d) + e == (a + b) + c + (d + e)
  {
  }

  lemma NothingAround(ids: seq<nat>)
    ensures [] + ids + [] == ids
  {
  }

  /** The largest key below a node. */
  function Last(n: Node): (k: int) {
    var s := Items(n);
    if s == [] then 0 else s[|s| - 1].key
  }

  lemma OfNothing()
    ensures OfAll([]) == NOTHING
  {
  }

  lemma PlusAssoc(a: Content, b: Content, c: Content)
    ensures Plus(Plus(a, b), c) == Plus(a, Plus(b, c))
    ensures Plus(a, NOTHING) == a && Plus(NOTHING, a) == a
  {
  }

  lemma {:induction false} OfAllAppend(a: seq<Node>, b: seq<Node>)
    ensures OfAll(a + b) == Plus(OfAll(a), OfAll(b))
  {
    if a == [] {
      assert a + b == b;
      PlusAssoc(OfAll(b), NOTHING, NOTHING);
    } else {
      assert (a + b)[1..] == a[1..] + b;
      calc {
        OfAll(a + b);
        Plus(Of(a[0]), OfAll(a[1..] + b));
        { OfAllAppend(a[1..], b); }
        Plus(Of(a[0]), Plus(OfAll(a[1..]), OfAll(b)));
        { PlusAssoc(Of(a[0]), OfAll(a[1..]), OfAll(b)); }
        Plus(OfAll(a), OfAll(b));
      }
    }
  }

  lemma OfOne(n: Node)
    ensures OfAll([n]) == Of(n)
  {
    assert [n][1..] == [] && OfAll([]) == NOTHING;
    assert OfAll([n]) == Plus(Of(n), NOTHING);
    PlusAssoc(Of(n), NOTHING, NOTHING);
  }

  lemma OfTwo(a: Node, b: Node)
    ensures OfAll([a, b]) == Plus(Of(a), Of(b))
  {
    assert [a, b] == [a] + [b];
    OfAllAppend([a], [b]);
    OfOne(a);
    OfOne(b);
  }

  /** Content around the `k` children from `i` on, after replacing them by `mid`. */
  lemma OfReplaced(kids: seq<Node>, i: nat, k: nat, mid: seq<Node>)
    requires i + k <= |kids|
    ensures OfAll(kids[..i] + mid + kids[i + k..]) == Plus(Plus(OfAll(kids[..i]), OfAll(mid)), OfAll(kids[i + k..]))
  {
    OfAllAppend(kids[..i] + mid, kids[i + k..]);
    OfAllAppend(kids[..i], mid);
  }

  lemma OfSplit(kids: seq<Node>, i: nat, k: nat)
    requires i + k <= |kids|
    ensures OfAll(kids) == Plus(Plus(OfAll(kids[..i]), OfAll(kids[i..i + k])), OfAll(kids[i + k..]))
  {
    assert kids == kids[..i] + kids[i..i + k] + kids[i + k..];
    OfReplaced(kids, i, k, kids[i..i + k]);
  }

  // ---------------------------------------------------------------------------------------
  // The invariant
  // ---------------------------------------------------------------------------------------

  predicate Ascending(s: seq<Item>) {
    forall i, j :: 0 <= i < j < |s| ==> s[i].key < s[j].key
  }

  /** Neither underfull nor over capacity. */
  predicate Fitting(n: Node) { !IsUnderflow(n) && Slots(n) <= MaxSlots(n) }

  /** Uniform height `h`, fitting children, and separators equal to the maximum on their left. */
  predicate Built(n: Node, h: nat) {
    match n
    case Leaf(_, items) => h == 0 && items != []
    case Inner(keys, kids) =>
      && h > 0 && |kids| == |keys| + 1
      && (forall i :: 0 <= i < |kids| ==> Built(kids[i], h - 1) && Fitting(kids[i]))
      && (forall i :: 0 <= i < |keys| ==> keys[i] == Last(kids[i]))
  }

  /** A subtree the operations work on: shape, capacity and key order. */
  predicate Sound(n: Node, h: nat) {
    Built(n, h) && Slots(n) <= MaxSlots(n) && Ascending(Items(n))
  }

  lemma {:induction false} NotEmpty(n: Node, h: nat)
    requires Built(n, h)
    ensures Items(n) != []
    decreases h
  {
    if n.Inner? {
      NotEmpty(n.kids[0], h - 1);
      assert OfAll(n.kids).items == Items(n.kids[0]) + OfAll(n.kids[1..]).items;
    }
  }

  lemma LastOfAppend(a: seq<Item>, b: seq<Item>)
    requires b != []
    ensures (a + b)[|a + b| - 1] == b[|b| - 1]
  {
  }

  lemma AscendingParts(a: seq<Item>, b: seq<Item>)
    requires Ascending(a + b)
    ensures Ascending(a) && Ascending(b)
    ensures forall i, j :: 0 <= i < |a| && 0 <= j < |b| ==> a[i].key < b[j].key
  {
    assert forall i :: 0 <= i < |a| ==> a[i] == (a + b)[i];
    assert forall j :: 0 <= j < |b| ==> b[j] == (a + b)[|a| + j];
  }

  // ---------------------------------------------------------------------------------------
  // Slots and sorted sequences
  // ---------------------------------------------------------------------------------------

  predicate IsPlace(s: seq<Item>, key: int, p: nat) {
    && p <= |s|
    && (forall i :: 0 <= i < p ==> s[i].key < key)
    && (forall i :: p <= i < |s| ==> key <= s[i].key)
  }

  /** The first slot with a key that is not smaller. */
  function Place(s: seq<Item>, key: int): (p: nat)
    requires Ascending(s)
    ensures IsPlace(s, key, p)
  {
    PlaceFrom(s, key, 0)
  }

  function PlaceFrom(s: seq<Item>, key: int, lo: nat): (p: nat)
    requires Ascending(s) && lo <= |s| && forall i :: 0 <= i < lo ==> s[i].key < key
    ensures IsPlace(s, key, p)
    decreases |s| - lo
  {
    if lo < |s| && s[lo].key < key then PlaceFrom(s, key, lo + 1) else lo
  }

  predicate Has(s: seq<Item>, key: int) {
    exists i :: 0 <= i < |s| && s[i].key == key
  }

  lemma HasAtPlace(s: seq<Item>, key: int)
    requires Ascending(s)
    ensures Has(s, key) <==> Place(s, key) < |s| && s[Place(s, key)].key == key
  {
    var p := Place(s, key);
    assert forall i :: p < i < |s| ==> s[p].key < s[i].key;
  }

  function Inserted(s: seq<Item>, it: Item): (r: seq<Item>)
    requires Ascending(s)
  {
    var p := Place(s, it.key);
    s[..p] + [it] + s[p..]
  }

  function Without(s: seq<Item>, key: int): (r: seq<Item>)
    requires Ascending(s)
  {
    var p := Place(s, key);
    if p < |s| && s[p].key == key then s[..p] + s[p + 1..] else s
  }

  /** Inserting adds the one item and keeps the order. */
  lemma InsertedIs(s: seq<Item>, it: Item)
    requires Ascending(s) && !Has(s, it.key)
    ensures Ascending(Inserted(s, it)) && |Inserted(s, it)| == |s| + 1
    ensures forall x :: x in Inserted(s, it) <==> x == it || x in s
  {
    var p := Place(s, it.key);
    assert forall i :: p <= i < |s| ==> s[i].key != it.key;
    AddedOrder(s[..p], it, s[p..]);
    assert s == s[..p] + s[p..];
  }

  lemma AddedOrder(a: seq<Item>, it: Item, b: seq<Item>)
    requires Ascending(a) && Ascending(b)
    requires forall i :: 0 <= i < |a| ==> a[i].key < it.key
    requires forall i :: 0 <= i < |b| ==> it.key < b[i].key
    ensures Ascending(a + [it] + b)
  {
  }

  /** Removing takes away exactly the items with the key. */
  lemma WithoutIs(s: seq<Item>, key: int)
    requires Ascending(s)
    ensures Ascending(Without(s, key)) && !Has(Without(s, key), key)
    ensures |Without(s, key)| == if Has(s, key) then |s| - 1 else |s|
    ensures forall x :: x in Without(s, key) <==> x in s && x.key != key
  {
    var p := Place(s, key);
    if p < |s| && s[p].key == key {
      var r := Without(s, key);
      assert forall i :: 0 <= i < |r| ==> r[i] == s[if i < p then i else i + 1];
      RemovedIs(s, key, p, r);
    } else {
      assert forall i :: 0 <= i < |s| ==> s[i].key != key;
    }
  }

  lemma WithoutSize(s: seq<Item>, key: int)
    requires Ascending(s)
    ensures Ascending(Without(s, key)) && |Without(s, key)| == |s| - (if Has(s, key) then 1 else 0)
    ensures !Has(s, key) ==> Without(s, key) == s
  {
    WithoutIs(s, key);
    HasAtPlace(s, key);
  }

  lemma RemovedIs(s: seq<Item>, key: int, p: nat, r: seq<Item>)
    requires Ascending(s) && p < |s| && s[p].key == key && |r| == |s| - 1
    requires forall i :: 0 <= i < |r| ==> r[i] == s[if i < p then i else i + 1]
    ensures Ascending(r) && !Has(r, key) && Has(s, key)
    ensures forall x :: x in r <==> x in s && x.key != key
  {
    forall x | x in s && x.key != key ensures x in r {
      var i :| 0 <= i < |s| && s[i] == x;
      assert r[if i < p then i else i - 1] == x;
    }
    forall i | 0 <= i < |r| ensures r[i].key != key {
      var j := if i < p then i else i + 1;
      assert r[i] == s[j] && (s[j].key < s[p].key || s[p].key < s[j].key);
    }
  }

  lemma PlaceUnique(s: seq<Item>, key: int, p: nat)
    requires Ascending(s) && IsPlace(s, key, p)
    ensures Place(s, key) == p
  {
    var q := Place(s, key);
    assert q < |s| ==> key <= s[q].key;
    assert p < |s| ==> key <= s[p].key;
  }

  /** A part that alone can hold the key. */
  predicate Middle(a: seq<Item>, b: seq<Item>, key: int) {
    && (forall i :: 0 <= i < |a| ==> a[i].key < key)
    && (forall i :: 0 <= i < |b| ==> key < b[i].key)
  }

  lemma PlaceInMiddle(a: seq<Item>, e: seq<Item>, b: seq<Item>, key: int)
    requires Ascending(a + e + b) && Middle(a, b, key)
    ensures Ascending(e) && Place(a + e + b, key) == |a| + Place(e, key)
  {
    AscendingParts(a + e, b);
    AscendingParts(a, e);
    var s, p := a + e + b, Place(e, key);
    assert forall i :: 0 <= i < |s| ==> s[i] == if i < |a| then a[i] else if i < |a| + |e| then e[i - |a|]
           else b[i - |a| - |e|];
    assert IsPlace(s, key, |a| + p);
    PlaceUnique(s, key, |a| + p);
  }

  lemma InsertedInMiddle(a: seq<Item>, e: seq<Item>, b: seq<Item>, it: Item)
    requires Ascending(a + e + b) && Middle(a, b, it.key)
    ensures Ascending(e) && Inserted(a + e + b, it) == a + Inserted(e, it) + b
  {
    PlaceInMiddle(a, e, b, it.key);
    var s, p := a + e + b, Place(e, it.key);
    assert s[..|a| + p] == a + e[..p] && s[|a| + p..] == e[p..] + b;
  }

  lemma WithoutInMiddle(a: seq<Item>, e: seq<Item>, b: seq<Item>, key: int)
    requires Ascending(a + e + b) && Middle(a, b, key)
    ensures Ascending(e) && Without(a + e + b, key) == a + Without(e, key) + b
  {
    PlaceInMiddle(a, e, b, key);
    var p := Place(e, key);
    if p < |e| {
      RemoveInMiddle(a, e, b, p);
    } else if b != [] {
      assert (a + e + b)[|a| + p] == b[0];
    }
  }

  lemma RemoveInMiddle(a: seq<Item>, e: seq<Item>, b: seq<Item>, p: nat)
    requires p < |e|
    ensures var s := a + e + b; s[|a| + p] == e[p] && s[..|a| + p] + s[|a| + p + 1..] == a + (e[..p] + e[p + 1..]) + b
  {
    var s := a + e + b;
    assert s[..|a| + p] == a + e[..p] && s[|a| + p + 1..] == e[p + 1..] + b;
  }

  lemma HasInMiddle(a: seq<Item>, e: seq<Item>, b: seq<Item>, key: int)
    requires Middle(a, b, key)
    ensures Has(a + e + b, key) <==> Has(e, key)
  {
    var s := a + e + b;
    assert forall i :: 0 <= i < |s| ==> s[i] == if i < |a| then a[i] else if i < |a| + |e| then e[i - |a|]
           else b[i - |a| - |e|];
    if i :| 0 <= i < |e| && e[i].key == key {
      assert s[|a| + i].key == key;
    }
  }
}
