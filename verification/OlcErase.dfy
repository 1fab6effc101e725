/**
 The repair of underfull nodes after a deletion in the optimistic-lock-coupling B+tree, as one thread
 runs it: borrow one entry from a sibling, or merge with one and go on with the parent.

 Merging inner nodes takes the new separator from a walk to the last leaf of the left one. The program
 asserts that this leaf holds a key. The model follows it on all trees, and says when the assert fails.
 */
module OlcErase {
  import opened Options
  import opened StxNodes
  import opened StxSteps
  import opened StxLeafList
  import opened OlcMerge
  import B = OlcNodes

  datatype Op = BorrowFromLeft | BorrowFromRight | RightToLeft | LeftToRight | NoMerge

  /** Left sibling first, and borrowing before merging, for a child at `pos` that has `slots` slots. */
  function ChooseFor(n: Tree, pos: nat, slots: nat): (op: Op)
    requires n.Inner? && pos < |n.kids| == |n.keys| + 1
  {
    if pos > 0 && Surplus(n.kids[pos - 1]) then BorrowFromLeft
    else if pos < |n.keys| && Surplus(n.kids[pos + 1]) then BorrowFromRight
    else if pos > 0 && HasSpace(n.kids[pos - 1], slots) then RightToLeft
    else if pos < |n.keys| && HasSpace(n.kids[pos + 1], slots) then LeftToRight
    else NoMerge
  }

  function Choose(n: Tree, pos: nat): (op: Op)
    requires n.Inner? && pos < |n.kids| == |n.keys| + 1
  {
    ChooseFor(n, pos, Slots(n.kids[pos]))
  }

  /** A sibling that can give an entry away, or that can be merged with; `pos` being `slots` strong. */
  predicate Feeds(n: Tree, i: int) { n.Inner? && 0 <= i < |n.kids| && Surplus(n.kids[i]) }

  predicate Takes(n: Tree, i: int, slots: nat) { n.Inner? && 0 <= i < |n.kids| && HasSpace(n.kids[i], slots) }

  /**
   Which sibling is used, from slot counts: nobody is merged while a sibling has entries to give, the left
   one goes before the right one, and a node is left alone iff neither has a surplus or space.
   */
  lemma ChoiceIs(n: Tree, pos: nat, slots: nat)
    requires n.Inner? && pos < |n.kids| == |n.keys| + 1
    ensures var op := ChooseFor(n, pos, slots);
            && (op.BorrowFromLeft? || op.BorrowFromRight? <==> Feeds(n, pos - 1) || Feeds(n, pos + 1))
            && (op.BorrowFromRight? ==> !Feeds(n, pos - 1)) && (op.BorrowFromLeft? ==> Feeds(n, pos - 1))
            && (op.NoMerge? <==> forall i :: i in {pos - 1, pos + 1} ==> !Feeds(n, i) && !Takes(n, i, slots))
            && (op.LeftToRight? ==> Takes(n, pos + 1, slots) && !Takes(n, pos - 1, slots))
            && (op.RightToLeft? ==> Takes(n, pos - 1, slots))
  {
  }

  /** One slot has moved between two children; all others are as before. */
  predicate Fed(n: Tree, n': Tree, from: int, to: int) {
    && n.Inner? && n'.Inner? && 0 <= from < |n.kids| && 0 <= to < |n.kids| && |n'.kids| == |n.kids|
    && Slots(n'.kids[to]) == Slots(n.kids[to]) + 1 && Slots(n'.kids[from]) == Slots(n.kids[from]) - 1
    && forall k :: 0 <= k < |n.kids| && k != from && k != to ==> n'.kids[k] == n.kids[k]
  }

  /** The children `i` and `i + 1` have become one with the slots of both. */
  predicate Joined(n: Tree, n': Tree, i: int) {
    && n.Inner? && n'.Inner? && 0 <= i < |n.kids| - 1 && |n'.kids| == |n.kids| - 1
    && Slots(n'.kids[i]) == Slots(n.kids[i]) + Slots(n.kids[i + 1]) + (if n.kids[i].Leaf? then 0 else 1)
    && (forall k :: 0 <= k < i ==> n'.kids[k] == n.kids[k])
    && (forall k :: i < k < |n'.kids| ==> n'.kids[k] == n.kids[k + 1])
  }

  /** What the operation does to the slot counts. */
  predicate Applied(op: Op, n: Tree, n': Tree, pos: int) {
    match op
    case BorrowFromLeft => Fed(n, n', pos - 1, pos)
    case BorrowFromRight => Fed(n, n', pos + 1, pos)
    case RightToLeft => Joined(n, n', pos - 1)
    case LeftToRight => Joined(n, n', pos)
    case NoMerge => n' == n
  }

  predicate HasKeys(n: Tree) { n.Inner? ==> |n.keys| >= 1 }

  /** `path` leads from `n` down to an underfull leaf. */
  predicate PathTo(n: Tree, path: seq<nat>)
    decreases |path|
  {
    && path != [] && n.Inner? && path[0] < |n.kids| == |n.keys| + 1
    && var kid := n.kids[path[0]];
       if |path| == 1 then kid.Leaf? && NeedMerge(kid) else PathTo(kid, path[1..])
  }

  /** The parent of the leaf the path leads to. */
  function LeafParent(n: Tree, path: seq<nat>): (p: Tree)
    requires PathTo(n, path)
    ensures p.Inner? && path[|path| - 1] < |p.kids| == |p.keys| + 1
    decreases |path|
  {
    if |path| == 1 then n else LeafParent(n.kids[path[0]], path[1..])
  }

  // ---------------------------------------------------------------------------------------
  // How far a repair goes
  // ---------------------------------------------------------------------------------------

  // At a node, a repair stops, goes on with the node above (this one then having so many slots, and an
  // empty last leaf or not), or breaks: an inner merge walks to an empty leaf.
  datatype Fate = Stops | GoesOn(slots: nat, bare: bool) | Breaks

  /** Merging the children `i` and `i + 1`, whose last leaves are empty or not. */
  function FateOfMerge(n: Tree, i: nat, left: bool, right: bool): (f: Fate)
    requires n.Inner? && i < |n.keys| == |n.kids| - 1
  {
    var k := |n.keys| - 1;
    if n.kids[i].Inner? && left then Breaks
    else if 5 * k > 2 * INNER_ENTRIES then Stops
    else if i < k then GoesOn(k, Bare(n.kids[k + 1]))
    else GoesOn(k, right && (n.kids[i].Leaf? ==> left))
  }

  function FateAt(n: Tree, pos: nat, slots: nat, bare: bool): (f: Fate)
    requires n.Inner? && pos < |n.kids| == |n.keys| + 1
  {
    match ChooseFor(n, pos, slots)
    case RightToLeft => FateOfMerge(n, pos - 1, Bare(n.kids[pos - 1]), bare)
    case LeftToRight => FateOfMerge(n, pos, bare, Bare(n.kids[pos + 1]))
    case NoMerge => if |n.keys| == 0 then GoesOn(0, bare) else Stops
    case _ => Stops
  }

  /** What a repair along `path` comes to at `n`, told from slot counts and last leaves before it. */
  function FateOf(n: Tree, path: seq<nat>): (f: Fate)
    requires PathTo(n, path)
    decreases |path|
  {
    var kid := n.kids[path[0]];
    var below := if |path| == 1 then GoesOn(Slots(kid), Bare(kid)) else FateOf(kid, path[1..]);
    if below.GoesOn? then FateAt(n, path[0], below.slots, below.bare) else below
  }

  function One(k: nat): (leaf: Tree) { Leaf(k, [Item(k, 0)]) }

  function Few(k: nat): (leaf: Tree) { Leaf(k, [Item(k - 5, 0), Item(k, 0)]) }

  function Only(kid: Tree): (n: Tree) { Inner([], [kid]) }

  function Two(l: Tree, sep: int, r: Tree): (n: Tree) { Inner([sep], [l, r]) }

  lemma OnlyRanged(kid: Tree, h: nat, lo: B.Bound, hi: B.Bound)
    requires Ranged(kid, h, lo, hi)
    ensures Ranged(Only(kid), h + 1, lo, hi)
  {
  }

  lemma TwoRanged(l: Tree, sep: int, r: Tree, h: nat, lo: B.Bound, hi: B.Bound)
    requires Ranged(l, h, lo, B.Fin(sep)) && Ranged(r, h, B.Fin(sep), hi) && Between(sep, lo, hi)
    ensures Ranged(Two(l, sep, r), h + 1, lo, hi)
  {
  }

  lemma FewRanged()
    ensures Ranged(Two(Few(20), 20, Few(30)), 1, B.Fin(10), B.PosInf)
  {
    assert Ranged(Few(20), 0, B.Fin(10), B.Fin(20)) && Ranged(Few(30), 0, B.Fin(20), B.PosInf);
    TwoRanged(Few(20), 20, Few(30), 0, B.Fin(10), B.PosInf);
    hide Ranged;
  }

  /** An empty leaf that is an only child, below an underfull node with a right sibling to merge with. */
  lemma OnlyChildBreaks()
    ensures var t := Two(Only(Leaf(0, [])), 10, Two(Few(20), 20, Few(30)));
            Ranged(t, 2, B.NegInf, B.PosInf) && PathTo(t, [0, 0]) && FateOf(t, [0, 0]).Breaks?
  {
    var l, r := Only(Leaf(0, [])), Two(Few(20), 20, Few(30));
    assert Ranged(l, 1, B.NegInf, B.Fin(10)) by { OnlyRanged(Leaf(0, []), 0, B.NegInf, B.Fin(10)); }
    FewRanged();
    TwoRanged(l, 10, r, 1, B.NegInf, B.PosInf);
    hide Ranged;
    assert [0, 0][1..] == [0];
    assert PathTo(l, [0]) && FateOf(l, [0]) == GoesOn(0, true);
  }

  lemma OnlyPair(a: Tree, sep: int, b: Tree, lo: B.Bound, hi: B.Bound)
    requires Ranged(a, 0, lo, B.Fin(sep)) && Ranged(b, 0, B.Fin(sep), hi) && Between(sep, lo, hi)
    ensures Ranged(Two(Only(a), sep, Only(b)), 2, lo, hi)
  {
    OnlyRanged(a, 0, lo, B.Fin(sep));
    OnlyRanged(b, 0, B.Fin(sep), hi);
    TwoRanged(Only(a), sep, Only(b), 1, lo, hi);
  }

  const TALL_LEFT: Tree := Two(Only(One(5)), 10, Only(Leaf(0, [])))
  const TALL_RIGHT: Tree := Two(Only(One(150)), 200, Only(One(300)))

  lemma TallRanged()
    ensures Ranged(Two(TALL_LEFT, 100, TALL_RIGHT), 3, B.NegInf, B.PosInf)
  {
    OnlyPair(One(5), 10, Leaf(0, []), B.NegInf, B.Fin(100));
    OnlyPair(One(150), 200, One(300), B.Fin(100), B.PosInf);
    TwoRanged(TALL_LEFT, 100, TALL_RIGHT, 2, B.NegInf, B.PosInf);
  }

  lemma TallGoesOn()
    ensures PathTo(TALL_LEFT, [1, 0]) && FateOf(TALL_LEFT, [1, 0]) == GoesOn(0, true)
  {
    var kid := TALL_LEFT.kids[1];
    assert [1, 0][1..] == [0];
    assert PathTo(kid, [0]) && FateOf(kid, [0]) == GoesOn(0, true);
  }

  /** An empty leaf that a merge into the left sibling has made the last one of its node. */
  lemma LastLeafBreaks()
    ensures var t := Two(TALL_LEFT, 100, TALL_RIGHT);
            Ranged(t, 3, B.NegInf, B.PosInf) && PathTo(t, [0, 1, 0]) && FateOf(t, [0, 1, 0]).Breaks?
  {
    hide Ranged;
    TallRanged();
    TallGoesOn();
    assert [0, 1, 0][1..] == [1, 0];
  }

  /** All leaves below hold entries, except perhaps one that is the child at `pos`. */
  predicate SparseAt(n: Tree, h: nat, pos: nat) {
    && n.Inner? && h > 0 && pos < |n.kids| == |n.keys| + 1
    && (forall i :: 0 <= i < |n.kids| && i != pos ==> Filled(n.kids[i], h - 1))
    && (Filled(n.kids[pos], h - 1) || n.kids[pos].Leaf?)
  }

  /** All leaves hold entries, except perhaps the one the path leads to. */
  predicate SparsePath(n: Tree, h: nat, path: seq<nat>)
    requires PathTo(n, path)
    decreases |path|
  {
    && h > 0
    && (forall i :: 0 <= i < |n.kids| && i != path[0] ==> Filled(n.kids[i], h - 1))
    && (|path| > 1 ==> SparsePath(n.kids[path[0]], h - 1, path[1..]))
  }

  /** With no other leaf empty, only an emptied leaf that is an only child can break the repair. */
  lemma {:induction false} SparseBreaks(n: Tree, h: nat, lo: B.Bound, hi: B.Bound, path: seq<nat>)
    requires Ranged(n, h, lo, hi) && PathTo(n, path) && SparsePath(n, h, path)
    requires |LeafParent(n, path).keys| >= 1 || !Bare(LeafParent(n, path).kids[path[|path| - 1]])
    ensures !FateOf(n, path).Breaks? && (FateOf(n, path).GoesOn? ==> !FateOf(n, path).bare)
    decreases |path|
  {
    var s := path[0];
    KidRanged(n, h, lo, hi, s);
    if |path| > 1 {
      SparseBreaks(n.kids[s], h - 1, KidLo(n.keys, lo, s), KidHi(n.keys, hi, s), path[1..]);
    }
    forall i | 0 <= i < |n.kids|
      ensures (i != s ==> !Bare(n.kids[i])) && n.kids[i].Leaf? == n.kids[s].Leaf?
    {
      KidRanged(n, h, lo, hi, i);
      if i != s {
        FilledNotBare(n.kids[i], h - 1);
      }
    }
    var kid := n.kids[s];
    var below := if |path| == 1 then GoesOn(Slots(kid), Bare(kid)) else FateOf(kid, path[1..]);
    assert below.GoesOn? ==> |path| == 1 || !below.bare;
    if below.GoesOn? {
      MergeNotBare(n, s, below.slots, below.bare);
    }
  }

  lemma MergeNotBare(n: Tree, pos: nat, slots: nat, bare: bool)
    requires n.Inner? && pos < |n.kids| == |n.keys| + 1
             && (forall i :: 0 <= i < |n.kids| && i != pos ==> !Bare(n.kids[i]))
    requires bare ==> n.kids[pos].Leaf? && |n.keys| >= 1
    requires forall i :: 0 <= i < |n.kids| ==> n.kids[i].Leaf? == n.kids[pos].Leaf?
    ensures var f := FateAt(n, pos, slots, bare); !f.Breaks? && (f.GoesOn? ==> !f.bare)
  {
    var k := |n.keys|;
    assert pos < k ==> !Bare(n.kids[pos + 1]) && !Bare(n.kids[k]);
  }

  /** Beside a sibling, an empty leaf is always merged or fed. */
  lemma EmptyLeafServed(n: Tree, h: nat, lo: B.Bound, hi: B.Bound, pos: nat)
    requires n.Inner? && Ranged(n, h, lo, hi) && pos < |n.kids| && n.kids[pos].Leaf? && n.kids[pos].items == []
    ensures Choose(n, pos) == NoMerge <==> |n.keys| == 0
  {
    if pos > 0 {
      KidRanged(n, h, lo, hi, pos - 1);
    } else if |n.keys| > 0 {
      KidRanged(n, h, lo, hi, 1);
    }
  }

  // ---------------------------------------------------------------------------------------
  // Inner nodes without separators
  // ---------------------------------------------------------------------------------------

  /** Every inner node has a separator, so that no node is an only child. */
  predicate Keyed(n: Tree) {
    n.Inner? ==> |n.keys| >= 1 && forall i :: 0 <= i < |n.kids| ==> Keyed(n.kids[i])
  }

  predicate KidsKeyed(n: Tree) {
    n.Inner? ==> forall i :: 0 <= i < |n.kids| ==> Keyed(n.kids[i])
  }

  /** Every inner node but the child at `pos` has one. */
  predicate KeyedBut(n: Tree, pos: nat) {
    && n.Inner? && |n.keys| >= 1 && pos < |n.kids| && KidsKeyed(n.kids[pos])
    && forall i :: 0 <= i < |n.kids| && i != pos ==> Keyed(n.kids[i])
  }

  lemma {:induction false} KeyedLeafParent(n: Tree, path: seq<nat>)
    requires PathTo(n, path) && Keyed(n)
    ensures |LeafParent(n, path).keys| >= 1
    decreases |path|
  {
    if |path| > 1 {
      KeyedLeafParent(n.kids[path[0]], path[1..]);
    }
  }

  /** Where every inner node has a separator and no other leaf is empty, no repair breaks. */
  lemma KeyedNeverBreaks(n: Tree, h: nat, lo: B.Bound, hi: B.Bound, path: seq<nat>)
    requires Ranged(n, h, lo, hi) && PathTo(n, path) && SparsePath(n, h, path) && Keyed(n)
    ensures !FateOf(n, path).Breaks?
  {
    KeyedLeafParent(n, path);
    SparseBreaks(n, h, lo, hi, path);
  }

  lemma MergeKeyed(n: Tree, pos: nat, i: nat, sep: int)
    requires KeyedBut(n, pos) && i < |n.keys| == |n.kids| - 1 && (pos == i || pos == i + 1)
             && Pair(n.kids[i], n.kids[i + 1])
    ensures KidsKeyed(MergeKids(n, i, sep))
  {
    var r := MergeKids(n, i, sep);
    assert KidsKeyed(n.kids[i]) && KidsKeyed(n.kids[i + 1]);
    var j := Join(n.kids[i], sep, n.kids[i + 1]);
    assert Keyed(j);
    forall k | 0 <= k < |r.kids| ensures Keyed(r.kids[k]) {
      assert k < i ==> r.kids[k] == n.kids[k];
      assert k > i ==> r.kids[k] == n.kids[k + 1];
    }
  }

  lemma SpreadKeyed(n: Tree, pos: nat, i: nat, m: nat)
    requires KeyedBut(n, pos) && i < |n.keys| == |n.kids| - 1 && (pos == i || pos == i + 1)
    requires Pair(n.kids[i], n.kids[i + 1]) && 0 < m < Slots(n.kids[i]) + Slots(n.kids[i + 1])
    ensures Keyed(SpreadAt(n, i, m))
  {
    var l, sep, r := n.kids[i], n.keys[i], n.kids[i + 1];
    assert KidsKeyed(l) && KidsKeyed(r);
    assert KidsKeyed(Join(l, sep, r));
    var t := SpreadAt(n, i, m);
    assert Keyed(SpreadLeft(l, sep, r, m)) && Keyed(SpreadRight(l, sep, r, m));
    forall k | 0 <= k < |t.kids| ensures Keyed(t.kids[k]) {
      assert k < i || k > i + 1 ==> t.kids[k] == n.kids[k];
    }
  }

  /** From a capacity of four on, an inner node without separators always finds a sibling to turn to. */
  lemma KeylessServed(n: Tree, h: nat, lo: B.Bound, hi: B.Bound, pos: nat)
    requires n.Inner? && Ranged(n, h, lo, hi) && pos < |n.kids| && n.kids[pos].Inner? && |n.kids[pos].keys| == 0
             && |n.keys| >= 1
    ensures INNER_ENTRIES >= 4 ==> Choose(n, pos) != NoMerge
  {
    KidRanged(n, h, lo, hi, pos);
    if pos > 0 {
      KidRanged(n, h, lo, hi, pos - 1);
    } else {
      KidRanged(n, h, lo, hi, 1);
    }
  }

  // ---------------------------------------------------------------------------------------
  // The forward chain of leaves
  // ---------------------------------------------------------------------------------------

  predicate Linked(next: map<nat, Ptr>, ids: seq<nat>) {
    && Distinct(ids)
    && forall i :: 0 <= i < |ids| ==> ids[i] in next && next[ids[i]] == NextOf(ids, i)
  }

  /** The right leaf leaves the chain. */
  lemma Bypass(next: map<nat, Ptr>, a: seq<nat>, l: nat, r: nat, b: seq<nat>)
    requires Linked(next, a + [l, r] + b)
    ensures r in next && l in next && Linked(next[l := next[r]], a + [l] + b)
  {
    var ids, ids', p := a + [l, r] + b, a + [l] + b, |a|;
    assert ids[p] == l && ids[p + 1] == r;
    var next' := next[l := next[r]];
    forall i | 0 <= i < |ids'| ensures ids'[i] == ids[if i <= p then i else i + 1] {
    }
    forall i | 0 <= i < |ids'| ensures ids'[i] in next' && next'[ids'[i]] == NextOf(ids', i) {
      var k := if i <= p then i else i + 1;
      assert ids[k] in next && next[ids[k]] == NextOf(ids, k);
      assert i == p ==> next[r] == NextOf(ids, p + 1);
    }
  }

  // ---------------------------------------------------------------------------------------
  // One step
  // ---------------------------------------------------------------------------------------

  lemma MergeFilled(n: Tree, h: nat, pos: nat, i: nat, sep: int)
    requires SparseAt(n, h, pos) && i < |n.keys| && (pos == i || pos == i + 1) && n.kids[i].Leaf? == n.kids[i + 1].Leaf?
    ensures Filled(MergeKids(n, i, sep), h)
  {
    var r := MergeKids(n, i, sep);
    JoinFilled(n.kids[i], sep, n.kids[i + 1], h - 1);
    forall k | 0 <= k < |r.kids| ensures Filled(r.kids[k], h - 1) {
      assert k < i ==> r.kids[k] == n.kids[k];
      assert k > i ==> r.kids[k] == n.kids[k + 1];
    }
  }

  lemma MergeBare(n: Tree, i: nat, sep: int)
    requires n.Inner? && i < |n.keys| == |n.kids| - 1 && Pair(n.kids[i], n.kids[i + 1])
    ensures Bare(MergeKids(n, i, sep)) <==>
            if i + 1 < |n.keys| then Bare(n.kids[|n.keys|])
            else Bare(n.kids[i + 1]) && (n.kids[i].Leaf? ==> Bare(n.kids[i]))
  {
    JoinBare(n.kids[i], sep, n.kids[i + 1]);
    var kids' := MergeKids(n, i, sep).kids;
    assert i + 1 < |n.keys| ==> kids'[|kids'| - 1] == n.kids[|n.keys|];
  }

  lemma SpreadFilledAt(n: Tree, h: nat, pos: nat, i: nat, m: nat)
    requires SparseAt(n, h, pos) && i < |n.keys| && (pos == i || pos == i + 1)
    requires Pair(n.kids[i], n.kids[i + 1]) && 0 < m < Slots(n.kids[i]) + Slots(n.kids[i + 1])
    ensures Filled(SpreadAt(n, i, m), h)
  {
    var r := SpreadAt(n, i, m);
    SpreadFilled(n.kids[i], n.keys[i], n.kids[i + 1], h - 1, m);
    forall k | 0 <= k < |r.kids| ensures Filled(r.kids[k], h - 1) {
      assert k < i || k > i + 1 ==> r.kids[k] == n.kids[k];
    }
  }

  /** Order, bounds and content of `n` are kept, and a root left without separators can give way to its child. */
  predicate Kept(n: Tree, n': Tree, h: nat, lo: B.Bound, hi: B.Bound) {
    && n.Inner? && n'.Inner? && Ranged(n', h, lo, hi) && Items(n') == Items(n)
    && (|n'.keys| == 0 < |n.keys| ==> HasKeys(n'.kids[0]))
  }

  /** `n'` is what the fate says of it, and is repaired next iff the fate goes on. */
  predicate Leads(f: Fate, n': Tree, again: bool) {
    && (again <==> f.GoesOn?)
    && (again ==> NeedMerge(n') && Slots(n') == f.slots && Bare(n') == f.bare)
  }

  lemma MergeFacts(n: Tree, h: nat, pos: nat, i: nat, sep: int)
    requires n.Inner? && i < |n.keys| == |n.kids| - 1 && Pair(n.kids[i], n.kids[i + 1]) && (pos == i || pos == i + 1)
    requires n.kids[i].Leaf? || !Bare(n.kids[i])
    ensures var n' := MergeKids(n, i, sep);
            && Leads(FateOfMerge(n, i, Bare(n.kids[i]), Bare(n.kids[i + 1])), n', NeedMerge(n'))
            && (|n'.keys| == 0 ==> HasKeys(n'.kids[0]))
            && (SparseAt(n, h, pos) ==> Filled(n', h))
            && (KeyedBut(n, pos) ==> KidsKeyed(n'))
  {
    hide Keyed, KidsKeyed, KeyedBut, SparseAt, Bare, Filled;
    MergeBare(n, i, sep);
    if SparseAt(n, h, pos) {
      MergeFilled(n, h, pos, i, sep);
    }
    if KeyedBut(n, pos) {
      MergeKeyed(n, pos, i, sep);
    }
    assert Slots(MergeKids(n, i, sep)) == |n.keys| - 1;
  }

  lemma SpreadFeeds(n: Tree, i: nat, pos: nat, m: nat)
    requires n.Inner? && i < |n.keys| == |n.kids| - 1 && (pos == i || pos == i + 1) && Pair(n.kids[i], n.kids[i + 1])
    requires 0 < m < Slots(n.kids[i]) + Slots(n.kids[i + 1])
    requires m == if pos == i then Slots(n.kids[i]) + 1 else Slots(n.kids[i]) - 1
    ensures Fed(n, SpreadAt(n, i, m), if pos == i then i + 1 else i, pos)
  {
  }

  class MergingTree {
    var root: Tree
    var next: map<nat, Ptr>

    /** An empty leaf as the root. */
    constructor (id: nat)
      ensures Valid() && root == Leaf(id, [])
    {
      root, next := Leaf(id, []), map[id := Null];
      new;
      assert Ranged(root, 0, B.NegInf, B.PosInf);
    }

    /** Left takes over right's entries; separator and right child are erased from the parent. */
    method MergeSiblings(n: Tree, ghost h: nat, ghost lo: B.Bound, ghost hi: B.Bound, ghost pos: nat, i: nat,
                         ghost pre: seq<nat>, ghost post: seq<nat>)
      returns (n': Tree, ok: bool, again: bool)
      requires n.Inner? && Ranged(n, h, lo, hi) && i < |n.keys| == |n.kids| - 1 && (pos == i || pos == i + 1)
      requires if pos == i then HasSpace(n.kids[i + 1], Slots(n.kids[i])) else HasSpace(n.kids[i], Slots(n.kids[i + 1]))
      requires Linked(next, pre + Of(n).ids + post)
      modifies this`next
      ensures ok <==> !FateOfMerge(n, i, Bare(n.kids[i]), Bare(n.kids[i + 1])).Breaks?
      ensures ok ==> Kept(n, n', h, lo, hi) && Linked(next, pre + Of(n').ids + post)
      ensures ok ==> Leads(FateOfMerge(n, i, Bare(n.kids[i]), Bare(n.kids[i + 1])), n', again)
      ensures ok ==> Joined(n, n', i)
      ensures ok && SparseAt(n, h, pos) ==> Filled(n', h)
      ensures ok && KeyedBut(n, pos) ==> KidsKeyed(n') && (again || |n'.keys| >= 1)
    {
      hide Ranged, Of, OfAll, Linked, SparseAt, KeyedBut, KidsKeyed, Filled, Leads, NeedMerge;
      KidKinds(n, h, lo, hi, i);
      var l, r := n.kids[i], n.kids[i + 1];
      var sep := n.keys[i];
      if l.Inner? {
        var walk := MaxKeyWalk(l, h - 1, KidLo(n.keys, lo, i), KidHi(n.keys, hi, i));
        if walk.None? {
          return n, false, false;
        }
        sep := walk.value;
      }
      MergeKidsRanged(n, h, lo, hi, i, sep);
      MergeKidsContent(n, i, sep);
      MergeFacts(n, h, pos, i, sep);
      n' := Inner(n.keys[..i] + n.keys[i + 1..], n.kids[..i] + [Join(l, sep, r)] + n.kids[i + 2..]);
      ok, again := true, NeedMerge(n');
      if |n'.keys| == 0 {
        Keyless(n');
      }
      if l.Leaf? {
        ghost var a, b := OfAll(n.kids[..i]).ids, OfAll(n.kids[i + 2..]).ids;
        Regroup(pre, a, [l.id, r.id], b, post);
        Regroup(pre, a, [l.id], b, post);
        Bypass(next, pre + a, l.id, r.id, b + post);
        next := next[l.id := next[r.id]];
      }
    }

    /** One entry moves between the children `i` and `i + 1`, to the one at `pos`. */
    method BorrowOne(n: Tree, ghost h: nat, ghost lo: B.Bound, ghost hi: B.Bound, pos: nat, i: nat) returns (n': Tree)
      requires n.Inner? && Ranged(n, h, lo, hi) && i < |n.keys| == |n.kids| - 1 && (pos == i || pos == i + 1)
      requires NeedMerge(n.kids[pos]) && Surplus(n.kids[if pos == i then i + 1 else i])
      ensures Kept(n, n', h, lo, hi) && Of(n') == Of(n) && |n'.keys| == |n.keys|
      ensures Fed(n, n', if pos == i then i + 1 else i, pos)
      ensures SparseAt(n, h, pos) ==> Filled(n', h)
      ensures KeyedBut(n, pos) ==> Keyed(n')
    {
      hide Ranged, Of, OfAll, Keyed, KidsKeyed, KeyedBut, SparseAt, Filled, Fed;
      KidKinds(n, h, lo, hi, i);
      var l, sep, r := n.kids[i], n.keys[i], n.kids[i + 1];
      ghost var m := if pos == i then Slots(l) + 1 else Slots(l) - 1;
      SpreadFeeds(n, i, pos, m);
      SpreadKidsRanged(n, h, lo, hi, i, m);
      SpreadAtContent(n, i, m);
      if SparseAt(n, h, pos) {
        SpreadFilledAt(n, h, pos, i, m);
      }
      if KeyedBut(n, pos) {
        SpreadKeyed(n, pos, i, m);
      }
      l, sep, r := Realloc(l, sep, r, pos == i);
      n' := Inner(n.keys[i := sep], n.kids[i := l][i + 1 := r]);
      TwoReplaced(n.kids, i, l, r);
    }

    /** One round for the child at `pos`; `again` says whether `n` itself is to be repaired next. */
    method Step(n: Tree, ghost h: nat, ghost lo: B.Bound, ghost hi: B.Bound, pos: nat,
                ghost pre: seq<nat>, ghost post: seq<nat>)
      returns (n': Tree, ok: bool, again: bool)
      requires n.Inner? && Ranged(n, h, lo, hi) && pos < |n.kids| == |n.keys| + 1 && NeedMerge(n.kids[pos])
      requires Linked(next, pre + Of(n).ids + post)
      modifies this`next
      ensures ok <==> !FateAt(n, pos, Slots(n.kids[pos]), Bare(n.kids[pos])).Breaks?
      ensures ok ==> Kept(n, n', h, lo, hi) && Linked(next, pre + Of(n').ids + post)
      ensures ok ==> Leads(FateAt(n, pos, Slots(n.kids[pos]), Bare(n.kids[pos])), n', again)
      ensures ok ==> Applied(Choose(n, pos), n, n', pos)
      ensures Choose(n, pos) == NoMerge ==> n' == n && again == (|n.keys| == 0)
      ensures ok && SparseAt(n, h, pos) && (Choose(n, pos) != NoMerge || Filled(n.kids[pos], h - 1)) ==> Filled(n', h)
      ensures ok && KeyedBut(n, pos) && INNER_ENTRIES >= 4 ==> KidsKeyed(n') && (again || |n'.keys| >= 1)
    {
      hide Ranged, Of, Linked, Surplus, HasSpace;
      var op := Choose(n, pos);
      ok, again := true, false;
      match op
      case BorrowFromLeft => n' := BorrowOne(n, h, lo, hi, pos, pos - 1);
      case BorrowFromRight => n' := BorrowOne(n, h, lo, hi, pos, pos);
      case RightToLeft => n', ok, again := MergeSiblings(n, h, lo, hi, pos, pos - 1, pre, post);
      case LeftToRight => n', ok, again := MergeSiblings(n, h, lo, hi, pos, pos, pre, post);
      case NoMerge =>
        n', again := n, |n.keys| == 0;
        if KeyedBut(n, pos) && n.kids[pos].Inner? && |n.kids[pos].keys| == 0 {
          KeylessServed(n, h, lo, hi, pos);
        }
    }

    /**
     Repairs the leaf at the end of `path` and, while merges leave the parent underfull or the node is an
     only child, the nodes above it.
     */
    method MergeAlong(n: Tree, path: seq<nat>, ghost h: nat, ghost lo: B.Bound, ghost hi: B.Bound,
                      ghost pre: seq<nat>, ghost post: seq<nat>)
      returns (n': Tree, ok: bool, done: bool, again: bool)
      requires Ranged(n, h, lo, hi) && PathTo(n, path) && |path| == h && Linked(next, pre + Of(n).ids + post)
      modifies this`next
      decreases |path|, 0
      ensures ok <==> !FateOf(n, path).Breaks?
      ensures ok ==> Kept(n, n', h, lo, hi) && Linked(next, pre + Of(n').ids + post)
      ensures ok ==> Leads(FateOf(n, path), n', again)
      ensures done <==> Choose(LeafParent(n, path), path[|path| - 1]) != NoMerge
      ensures !done && Keyed(n) ==> n' == n && !again
      ensures ok && done && SparsePath(n, h, path) ==> Filled(n', h)
      ensures ok && Keyed(n) && INNER_ENTRIES >= 4 ==> KidsKeyed(n') && (again || |n'.keys| >= 1)
    {
      hide Ranged, Of, Linked, Bare, NeedMerge, FateAt, Filled, SparseAt, KeyedBut;
      if |path| == 1 {
        KeyedOnPath(n, path[0]);
        if SparsePath(n, h, path) {
          SparseOnPath(n, h, path);
        }
        done := Choose(n, path[0]) != NoMerge;
        n', ok, again := Step(n, h, lo, hi, path[0], pre, post);
      } else {
        n' := n;
        var kid;
        kid, ok, done, again := MergeBelow(n, path, h, lo, hi, pre, post);
        if ok {
          n' := Inner(n.keys, n.kids[path[0] := kid]);
          KidReplaced(n, h, lo, hi, path, kid, pre, post);
          FilledReplaced(n, h, path, kid);
          KeyedReplaced(n, path[0], kid);
          FateSame(n, path[0], kid);
          if again {
            n', ok, again := Step(n', h, lo, hi, path[0], pre, post);
          }
        }
      }
    }

    method MergeBelow(n: Tree, path: seq<nat>, ghost h: nat, ghost lo: B.Bound, ghost hi: B.Bound,
                      ghost pre: seq<nat>, ghost post: seq<nat>)
      returns (kid: Tree, ok: bool, done: bool, again: bool)
      requires Ranged(n, h, lo, hi) && PathTo(n, path) && |path| == h > 1 && Linked(next, pre + Of(n).ids + post)
      modifies this`next
      decreases |path| - 1, 1
      ensures ok <==> !FateOf(n.kids[path[0]], path[1..]).Breaks?
      ensures ok ==> Kept(n.kids[path[0]], kid, h - 1, KidLo(n.keys, lo, path[0]), KidHi(n.keys, hi, path[0]))
      ensures ok ==> Leads(FateOf(n.kids[path[0]], path[1..]), kid, again)
      ensures done <==> Choose(LeafParent(n, path), path[|path| - 1]) != NoMerge
      ensures !done && Keyed(n) ==> kid == n.kids[path[0]] && !again
      ensures ok && done && SparsePath(n, h, path) ==> Filled(kid, h - 1)
      ensures ok && Keyed(n) && INNER_ENTRIES >= 4 ==> KidsKeyed(kid) && (again || |kid.keys| >= 1)
      ensures ok ==> Linked(next, (pre + OfAll(n.kids[..path[0]]).ids) + Of(kid).ids
                                  + (OfAll(n.kids[path[0] + 1..]).ids + post))
    {
      hide Ranged, Of, OfAll, Linked, FateOf;
      var s := path[0];
      assert Keyed(n) ==> Keyed(n.kids[s]);
      KidRanged(n, h, lo, hi, s);
      KidContent(n, s);
      ghost var a, b := OfAll(n.kids[..s]).ids, OfAll(n.kids[s + 1..]).ids;
      Regroup(pre, a, Of(n.kids[s]).ids, b, post);
      kid, ok, done, again :=
        MergeAlong(n.kids[s], path[1..], h - 1, KidLo(n.keys, lo, s), KidHi(n.keys, hi, s), pre + a, b + post);
    }

    ghost predicate Valid()
      reads this
    {
      && (exists h :: Ranged(root, h, B.NegInf, B.PosInf)) && Linked(next, Of(root).ids)
      && (root.Inner? ==> |root.keys| >= 1)
    }

    /**
     The whole repair; a root left without separators gives way to its only child. It fails exactly if
     an inner merge on the way up walks to an empty leaf, and otherwise keeps what the tree holds.
     */
    method EraseMerge(path: seq<nat>) returns (ok: bool, done: bool)
      requires Valid() && (path != [] ==> PathTo(root, path))
      modifies this
      ensures ok <==> path == [] || !FateOf(old(root), path).Breaks?
      ensures ok ==> Valid() && Items(root) == old(Items(root))
      ensures done <==> path != [] && Choose(LeafParent(old(root), path), path[|path| - 1]) != NoMerge
      ensures !done && Keyed(old(root)) ==> root == old(root)
      ensures ok && done && SparsePath(old(root), |path|, path) ==> exists h :: Filled(root, h)
      ensures ok && Keyed(old(root)) && INNER_ENTRIES >= 4 ==> Keyed(root)
    {
      hide Linked, Of, FateOf, Choose, LeafParent, SparsePath;
      if path == [] {
        return true, false;
      }
      ghost var h :| Ranged(root, h, B.NegInf, B.PosInf);
      PathHeight(root, h, B.NegInf, B.PosInf, path);
      NothingAround(Of(root).ids);
      var n, again;
      n, ok, done, again := MergeAlong(root, path, h, B.NegInf, B.PosInf, [], []);
      if ok {
        NothingAround(Of(n).ids);
        if |n.keys| == 0 {
          OnlyChild(n, h, B.NegInf, B.PosInf);
          root := n.kids[0];
        } else {
          root := n;
        }
      }
    }
  }

  lemma KidKinds(n: Tree, h: nat, lo: B.Bound, hi: B.Bound, i: nat)
    requires n.Inner? && Ranged(n, h, lo, hi) && i < |n.keys|
    ensures |n.kids| == |n.keys| + 1 && Pair(n.kids[i], n.kids[i + 1]) && InPage(n.kids[i]) && InPage(n.kids[i + 1])
    ensures n.kids[i].Leaf? <==> h == 1
    ensures Ranged(n.kids[i], h - 1, KidLo(n.keys, lo, i), KidHi(n.keys, hi, i))
  {
    KidRanged(n, h, lo, hi, i);
    KidRanged(n, h, lo, hi, i + 1);
  }

  /** The walk down the last children: the program asserts that the leaf it ends at holds a key. */
  method MaxKeyWalk(n: Tree, ghost h: nat, ghost lo: B.Bound, ghost hi: B.Bound) returns (k: Option<int>)
    requires Ranged(n, h, lo, hi)
    ensures k == MaxKey(n)
  {
    var node := n;
    ghost var g, a := h, lo;
    while node.Inner?
      invariant Ranged(node, g, a, hi) && MaxKey(node) == MaxKey(n)
      decreases g
    {
      KidRanged(node, g, a, hi, |node.keys|);
      g, a := g - 1, KidLo(node.keys, a, |node.keys|);
      node := node.kids[|node.kids| - 1];
    }
    k := if node.items == [] then None else Some(node.items[|node.items| - 1].key);
  }

  /** Left borrows the first entry of right, or right the last entry of left. */
  method Realloc(l: Tree, sep: int, r: Tree, toLeft: bool) returns (l': Tree, sep': int, r': Tree)
    requires Pair(l, r) && (if toLeft then Slots(r) >= 2 else Slots(l) >= 2)
    ensures var m := if toLeft then Slots(l) + 1 else Slots(l) - 1;
            && 0 < m < Slots(l) + Slots(r)
            && l' == SpreadLeft(l, sep, r, m) && sep' == SpreadKey(l, sep, r, m) && r' == SpreadRight(l, sep, r, m)
  {
    if toLeft {
      SumCutRight(l, sep, r);
      if l.Leaf? {
        l', r' := Leaf(l.id, l.items + [r.items[0]]), Leaf(r.id, r.items[1..]);
        sep' := l'.items[|l'.items| - 1].key;
      } else {
        l' := Inner(l.keys + [sep], l.kids + [r.kids[0]]);
        sep' := r.keys[0];
        r' := Inner(r.keys[1..], r.kids[1..]);
      }
    } else {
      SumCutLeft(l, sep, r);
      if l.Leaf? {
        var u := |l.items| - 1;
        l', r' := Leaf(l.id, l.items[..u]), Leaf(r.id, [l.items[u]] + r.items);
        sep' := l'.items[|l'.items| - 1].key;
      } else {
        var u := |l.keys|;
        r' := Inner([sep] + r.keys, [l.kids[u]] + r.kids);
        sep' := l.keys[u - 1];
        l' := Inner(l.keys[..u - 1], l.kids[..u]);
      }
    }
  }

  lemma SumCutRight(l: Tree, sep: int, r: Tree)
    requires Pair(l, r) && Slots(r) >= 2
    ensures var j, m := Join(l, sep, r), Slots(l) + 1;
            && (l.Leaf? ==> j.items[..m] == l.items + [r.items[0]] && j.items[m..] == r.items[1..])
            && (l.Inner? ==>
                  && j.keys[..m] == l.keys + [sep] && j.keys[m] == r.keys[0] && j.keys[m + 1..] == r.keys[1..]
                  && j.kids[..m + 1] == l.kids + [r.kids[0]] && j.kids[m + 1..] == r.kids[1..])
  {
  }

  lemma SumCutLeft(l: Tree, sep: int, r: Tree)
    requires Pair(l, r) && Slots(l) >= 2
    ensures var j, u := Join(l, sep, r), Slots(l);
            && (l.Leaf? ==> j.items[..u - 1] == l.items[..u - 1] && j.items[u - 1..] == [l.items[u - 1]] + r.items)
            && (l.Inner? ==>
                  && j.keys[..u - 1] == l.keys[..u - 1] && j.keys[u - 1] == l.keys[u - 1]
                  && j.keys[u..] == [sep] + r.keys
                  && j.kids[..u] == l.kids[..u] && j.kids[u..] == [l.kids[u]] + r.kids)
  {
  }

  lemma Keyless(n: Tree)
    requires n.Inner? && |n.keys| == 0
    ensures NeedMerge(n)
  {
  }

  /** Putting the repaired child in place changes nothing that the choice above depends on. */
  lemma FateSame(n: Tree, pos: nat, kid: Tree)
    requires n.Inner? && pos < |n.kids| == |n.keys| + 1 && kid.Leaf? == n.kids[pos].Leaf?
    ensures var n1 := Inner(n.keys, n.kids[pos := kid]);
            FateAt(n1, pos, Slots(kid), Bare(kid)) == FateAt(n, pos, Slots(kid), Bare(kid))
  {
  }

  lemma {:induction false} PathHeight(n: Tree, h: nat, lo: B.Bound, hi: B.Bound, path: seq<nat>)
    requires Ranged(n, h, lo, hi) && PathTo(n, path)
    ensures h == |path|
    decreases h
  {
    KidRanged(n, h, lo, hi, path[0]);
    if |path| > 1 {
      PathHeight(n.kids[path[0]], h - 1, KidLo(n.keys, lo, path[0]), KidHi(n.keys, hi, path[0]), path[1..]);
    }
  }

  lemma KidContent(n: Tree, s: nat)
    requires n.Inner? && s < |n.kids|
    ensures Of(n).ids == OfAll(n.kids[..s]).ids + Of(n.kids[s]).ids + OfAll(n.kids[s + 1..]).ids
    ensures Items(n) == OfAll(n.kids[..s]).items + Items(n.kids[s]) + OfAll(n.kids[s + 1..]).items
  {
    OfSplit(n.kids, s, 1);
    assert n.kids[s..s + 1] == [n.kids[s]];
    OfOne(n.kids[s]);
  }

  /** A repaired child is put back. */
  lemma KidReplaced(n: Tree, h: nat, lo: B.Bound, hi: B.Bound, path: seq<nat>, kid: Tree, pre: seq<nat>, post: seq<nat>)
    requires Ranged(n, h, lo, hi) && PathTo(n, path) && |path| > 1
    requires Kept(n.kids[path[0]], kid, h - 1, KidLo(n.keys, lo, path[0]), KidHi(n.keys, hi, path[0]))
    ensures var n1, s := Inner(n.keys, n.kids[path[0] := kid]), path[0];
            && Kept(n, n1, h, lo, hi)
            && pre + Of(n1).ids + post
            == (pre + OfAll(n.kids[..s]).ids) + Of(kid).ids + (OfAll(n.kids[s + 1..]).ids + post)
  {
    var s := path[0];
    var n1 := Inner(n.keys, n.kids[s := kid]);
    forall i | 0 <= i < |n1.kids| ensures Ranged(n1.kids[i], h - 1, KidLo(n1.keys, lo, i), KidHi(n1.keys, hi, i)) {
      assert i != s ==> Ranged(n.kids[i], h - 1, KidLo(n.keys, lo, i), KidHi(n.keys, hi, i));
    }
    KidContent(n, s);
    KidContent(n1, s);
    assert n1.kids[..s] == n.kids[..s] && n1.kids[s + 1..] == n.kids[s + 1..];
    Regroup(pre, OfAll(n.kids[..s]).ids, Of(kid).ids, OfAll(n.kids[s + 1..]).ids, post);
  }

  lemma FilledReplaced(n: Tree, h: nat, path: seq<nat>, kid: Tree)
    requires PathTo(n, path) && |path| > 1
    ensures var n1 := Inner(n.keys, n.kids[path[0] := kid]);
            SparsePath(n, h, path) && Filled(kid, h - 1) ==> SparseAt(n1, h, path[0]) && Filled(n1, h)
  {
  }

  lemma KeyedReplaced(n: Tree, s: nat, kid: Tree)
    requires n.Inner? && s < |n.kids| && kid.Inner?
    ensures var n1 := Inner(n.keys, n.kids[s := kid]);
            && (Keyed(n) && KidsKeyed(kid) ==> KeyedBut(n1, s))
            && (Keyed(n) && Keyed(kid) ==> Keyed(n1))
  {
  }

  lemma SparseOnPath(n: Tree, h: nat, path: seq<nat>)
    requires PathTo(n, path) && |path| == 1 && SparsePath(n, h, path)
    ensures SparseAt(n, h, path[0])
  {
  }

  lemma KeyedOnPath(n: Tree, s: nat)
    requires n.Inner? && s < |n.kids|
    ensures Keyed(n) ==> KeyedBut(n, s)
  {
    assert Keyed(n) ==> Keyed(n.kids[s]);
  }

  lemma OnlyChild(n: Tree, h: nat, lo: B.Bound, hi: B.Bound)
    requires n.Inner? && Ranged(n, h, lo, hi) && |n.keys| == 0
    ensures Ranged(n.kids[0], h - 1, lo, hi) && Of(n.kids[0]).ids == Of(n).ids && Items(n.kids[0]) == Items(n)
    ensures (Filled(n, h) ==> Filled(n.kids[0], h - 1)) && (KidsKeyed(n) ==> Keyed(n.kids[0]))
  {
    KidRanged(n, h, lo, hi, 0);
    assert n.kids == [n.kids[0]];
    OfOne(n.kids[0]);
  }
}
