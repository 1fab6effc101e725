/**
 Deletion in the STX B+ tree, node by node: what an underfull node asks for, and what merging it with a
 sibling or shifting slots between them gives.
 */
module StxErase {
  import opened StxNodes
  import opened StxSteps

  datatype MaybeNode = NoNode | Some(node: Node)

  datatype MaybeKey = NoKey | Key(key: int)

  /** What a node that lost an item asks its parent to do. */
  datatype Fix = Keep | Collapse | MergeLeft | MergeRight | TakeLeft | TakeRight

  predicate Few(n: MaybeNode) { n.Some? && IsFew(n.node) }

  predicate Many(n: MaybeNode) { n.Some? && !IsFew(n.node) }

  /**
   The six cases. `left` and `right` are the neighbours on the same level, which need not be siblings;
   `leftNear` and `rightNear` say which of them have the same parent.
   */
  function Decide(n: Node, isRoot: bool, left: MaybeNode, right: MaybeNode, leftNear: bool,
                  rightNear: bool): (fix: Fix) {
    if !IsUnderflow(n) || (isRoot && Slots(n) >= 1) then Keep
    else if left.NoNode? && right.NoNode? then Collapse
    else if !Many(left) && !Many(right) then if leftNear then MergeLeft else MergeRight
    else if Few(left) && Many(right) then if rightNear then TakeRight else MergeLeft
    else if Many(left) && Few(right) then if leftNear then TakeLeft else MergeRight
    else if leftNear && rightNear then
      if left.Some? && right.Some? && Slots(left.node) <= Slots(right.node) then TakeRight else TakeLeft
    else if leftNear then TakeLeft
    else TakeRight
  }

  /**
   Whatever the cousins are like, merging happens only with a sibling that has few slots, shifting only with
   one that has many.
   */
  lemma DecideIsSafe(n: Node, left: MaybeNode, right: MaybeNode, leftNear: bool, rightNear: bool)
    requires (leftNear ==> left.Some?) && (rightNear ==> right.Some?) && (leftNear || rightNear)
    ensures var fix := Decide(n, false, left, right, leftNear, rightNear);
            && (fix == Keep <==> !IsUnderflow(n)) && fix != Collapse
            && (fix == MergeLeft ==> leftNear && Few(left)) && (fix == MergeRight ==> rightNear && Few(right))
            && (fix == TakeLeft ==> leftNear && Many(left)) && (fix == TakeRight ==> rightNear && Many(right))
  {
  }

  /** The rule behind the cases: merge with a sibling that has few slots, else take from the one that has more. */
  function Rule(left: MaybeNode, right: MaybeNode, leftNear: bool, rightNear: bool): (fix: Fix) {
    if leftNear && rightNear then
      if Few(left) && Few(right) then MergeLeft
      else if left.Some? && right.Some? && Slots(left.node) > Slots(right.node) then TakeLeft
      else TakeRight
    else if leftNear then if Few(left) then MergeLeft else TakeLeft
    else if Few(right) then MergeRight else TakeRight
  }

  /** Cousins do not matter after all. */
  lemma DecideIsRule(n: Node, left: MaybeNode, right: MaybeNode, leftNear: bool, rightNear: bool)
    requires (leftNear ==> left.Some?) && (rightNear ==> right.Some?) && (leftNear || rightNear)
    requires left.Some? && right.Some? ==> left.node.Leaf? == right.node.Leaf?
    ensures IsUnderflow(n) ==>
              Decide(n, false, left, right, leftNear, rightNear) == Rule(left, right, leftNear, rightNear)
  {
  }

  // ---------------------------------------------------------------------------------------
  // Removing an item
  // ---------------------------------------------------------------------------------------

  /** `n'` holds the items of `n` without the key; `last` reports a changed largest key. */
  predicate Erased(n: Node, h: nat, key: int, n': Node, last: MaybeKey)
    requires Ascending(Items(n))
  {
    && Items(n') == Without(Items(n), key)
    && n'.Leaf? == n.Leaf? && Slots(n) <= Slots(n') + 1 && Slots(n') <= MaxSlots(n')
    && (Items(n') == [] ==> n'.Leaf?)
    && (Items(n') != [] ==> Built(n', h) && Last(n') == if last.Key? then last.key else Last(n))
  }

  lemma LeafErased(leaf: Node, key: int)
    requires leaf.Leaf? && Sound(leaf, 0) && Has(leaf.items, key)
    ensures var p := Place(leaf.items, key);
            && p < |leaf.items|
            && var rest := leaf.items[..p] + leaf.items[p + 1..];
               Erased(leaf, 0, key, Leaf(leaf.id, rest),
                      if p == |rest| && rest != [] then Key(rest[|rest| - 1].key) else NoKey)
  {
    HasAtPlace(leaf.items, key);
  }

  /** The parent of an erased-from child, with its separator brought up to date. */
  function Updated(n: Node, slot: nat, kid: Node, last: MaybeKey): (r: Node)
    requires n.Inner? && slot < |n.kids| == |n.keys| + 1
  {
    Inner(if last.Key? && slot < |n.keys| then n.keys[slot := last.key] else n.keys, n.kids[slot := kid])
  }

  lemma ChildErased(n: Node, h: nat, key: int, slot: nat, kid: Node, last: MaybeKey)
    requires Sound(n, h) && n.Inner? && IsSlot(n.keys, key, slot) && slot < |n.kids|
    requires Ascending(Items(n.kids[slot])) && Erased(n.kids[slot], h - 1, key, kid, last) && Items(kid) != []
    ensures BuiltBut(Updated(n, slot, kid, last), h, slot)
    ensures Items(Updated(n, slot, kid, last)) == Without(Items(n), key)
  {
    var n' := Updated(n, slot, kid, last);
    Route(n, h, key, slot);
    AroundChild(n', slot);
    assert n'.kids[..slot] == n.kids[..slot] && n'.kids[slot + 1..] == n.kids[slot + 1..];
    WithoutInMiddle(Before(n, slot), Items(n.kids[slot]), After(n, slot), key);
  }

  /** The largest key below the parent changes only if the child was the last one. */
  lemma ChildErasedLast(n: Node, h: nat, slot: nat, kid: Node, last: MaybeKey, n': Node)
    requires n.Inner? && Built(n, h) && slot < |n.kids| && Built(kid, h - 1)
    requires Last(kid) == if last.Key? then last.key else Last(n.kids[slot])
    requires n'.Inner? && |n'.kids| == |n.kids| && n'.kids == n.kids[slot := kid]
    ensures Last(n') == if last.Key? && slot == |n.keys| then last.key else Last(n)
  {
    LastOfInner(n, h);
    var k := n'.kids[|n.keys|];
    NotEmpty(k, h - 1);
    LastBefore(n', |n'.kids|);
    assert n'.kids[..|n'.kids|] == n'.kids;
  }

  // ---------------------------------------------------------------------------------------
  // Rebalancing siblings
  // ---------------------------------------------------------------------------------------

  /** Slots move from the right sibling to the left one until they are even. */
  method ShiftLeft(l: Node, sep: int, r: Node) returns (l': Node, sep': int, r': Node)
    requires Pair(l, r) && Slots(l) >= 1 && Slots(l) + 2 <= Slots(r)
    ensures var m := Slots(l) + (Slots(r) - Slots(l)) / 2;
            l' == SpreadLeft(l, sep, r, m) && sep' == SpreadKey(l, sep, r, m) && r' == SpreadRight(l, sep, r, m)
  {
    var k := (Slots(r) - Slots(l)) / 2;
    ghost var j, m := Join(l, sep, r), Slots(l) + k;
    if l.Leaf? {
      l', r' := Leaf(l.id, l.items + r.items[..k]), Leaf(r.id, r.items[k..]);
      sep' := l'.items[|l'.items| - 1].key;
      assert l'.items == j.items[..m] && r'.items == j.items[m..];
    } else {
      l' := Inner(l.keys + [sep] + r.keys[..k - 1], l.kids + r.kids[..k]);
      sep' := r.keys[k - 1];
      r' := Inner(r.keys[k..], r.kids[k..]);
      assert l'.keys == j.keys[..m] && r'.keys == j.keys[m + 1..];
      assert l'.kids == j.kids[..m + 1] && r'.kids == j.kids[m + 1..];
    }
  }

  /** Slots move from the left sibling to the right one until they are even. */
  method ShiftRight(l: Node, sep: int, r: Node) returns (l': Node, sep': int, r': Node)
    requires Pair(l, r) && Slots(r) >= 1 && Slots(r) + 2 <= Slots(l)
    ensures var m := Slots(l) - (Slots(l) - Slots(r)) / 2;
            l' == SpreadLeft(l, sep, r, m) && sep' == SpreadKey(l, sep, r, m) && r' == SpreadRight(l, sep, r, m)
  {
    var k := (Slots(l) - Slots(r)) / 2;
    ghost var j, m := Join(l, sep, r), Slots(l) - k;
    var u := Slots(l);
    if l.Leaf? {
      l', r' := Leaf(l.id, l.items[..u - k]), Leaf(r.id, l.items[u - k..] + r.items);
      sep' := l'.items[|l'.items| - 1].key;
      assert l'.items == j.items[..m] && r'.items == j.items[m..];
    } else {
      r' := Inner(l.keys[u - k + 1..] + [sep] + r.keys, l.kids[u - k + 1..] + r.kids);
      sep' := l.keys[u - k];
      l' := Inner(l.keys[..u - k], l.kids[..u - k + 1]);
      assert l'.keys == j.keys[..m] && r'.keys == j.keys[m + 1..];
      assert l'.kids == j.kids[..m + 1] && r'.kids == j.kids[m + 1..];
    }
  }

  /** The child at `s` is one slot short; its sibling at `i` or `i + 1` has slots to spare. */
  lemma EvenIsFitting(n: Node, h: nat, s: nat, i: nat, m: nat)
    requires BuiltBut(n, h, s) && i < |n.keys| && (s == i || s == i + 1)
    requires IsUnderflow(n.kids[s]) && MaxSlots(n.kids[s]) / 2 <= Slots(n.kids[s]) + 1
    requires var o := n.kids[if s == i then i + 1 else i];
             && !IsFew(o)
             && m == (if s == i then Slots(n.kids[s]) + (Slots(o) - Slots(n.kids[s])) / 2
                      else Slots(o) - (Slots(o) - Slots(n.kids[s])) / 2)
    ensures Pair(n.kids[i], n.kids[i + 1]) && 0 < m < Slots(n.kids[i]) + Slots(n.kids[i + 1])
    ensures Built(SpreadAt(n, i, m), h) && Slots(SpreadAt(n, i, m)) == Slots(n) && Of(SpreadAt(n, i, m)) == Of(n)
  {
    assert n.kids[i].Leaf? == n.kids[i + 1].Leaf?;
    SpreadAtBuilt(n, h, s, i, m);
  }

  /** The child at `s` is one slot short; its sibling at `i` or `i + 1` is not above half. */
  lemma JoinIsFitting(n: Node, h: nat, s: nat, i: nat)
    requires BuiltBut(n, h, s) && i < |n.keys| && (s == i || s == i + 1)
    requires IsUnderflow(n.kids[s]) && MaxSlots(n.kids[s]) / 2 <= Slots(n.kids[s]) + 1
    requires IsFew(n.kids[if s == i then i + 1 else i])
    ensures n.kids[i].Leaf? == n.kids[i + 1].Leaf?
    ensures Built(JoinAt(n, i), h) && Slots(JoinAt(n, i)) == Slots(n) - 1
    ensures i < |n.keys| - 1 ==> JoinAt(n, i).keys[i] == Last(Join(n.kids[i], n.keys[i], n.kids[i + 1]))
  {
    assert n.kids[i].Leaf? == n.kids[i + 1].Leaf?;
    JoinBuilt(n.kids[i], n.keys[i], n.kids[i + 1], h - 1);
    JoinAtBuilt(n, h, s, i);
  }
}
