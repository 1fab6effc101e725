/**
 Merging and borrowing after deletions in the optimistic-lock-coupling B+tree, without concurrent
 threads. Nodes are the value nodes of the STX tree: leaves with items and an identity, inner nodes
 with separators, but here a separator only bounds the keys on both sides.
 */
module OlcMerge {
  import opened Options
  import opened StxNodes
  import opened StxSteps
  import B = OlcNodes

  type LeafCapacity = n: nat | n >= 3 witness 3

  const LEAF_ENTRIES: LeafCapacity
  const INNER_ENTRIES: LeafCapacity

  type Tree = Node

  function MaxEntries(n: Tree): (k: nat) { if n.Leaf? then LEAF_ENTRIES else INNER_ENTRIES }

  /** At most two fifths full. */
  predicate NeedMerge(n: Tree) { 5 * Slots(n) <= 2 * MaxEntries(n) }

  /** More than two fifths, rounded up. */
  predicate Surplus(n: Tree) { Slots(n) > (2 * MaxEntries(n) + 4) / 5 }

  predicate HasSpace(n: Tree, need: nat) {
    if n.Leaf? then Slots(n) + need <= LEAF_ENTRIES else Slots(n) + need + 1 < INNER_ENTRIES
  }

  /** A node has a surplus iff it still fills two fifths of its page when it has given one entry away. */
  lemma SurplusIs(n: Tree)
    ensures Surplus(n) <==> 5 * (Slots(n) - 1) >= 2 * MaxEntries(n)
  {
  }

  predicate InPage(n: Tree) { if n.Leaf? then Slots(n) <= LEAF_ENTRIES else Slots(n) < INNER_ENTRIES }

  // ---------------------------------------------------------------------------------------
  // Bounds
  // ---------------------------------------------------------------------------------------

  predicate Within(k: int, lo: B.Bound, hi: B.Bound) { B.Above(k, lo) && B.UpTo(k, hi) }

  function KidLo(keys: seq<int>, lo: B.Bound, i: nat): (b: B.Bound)
    requires i <= |keys|
  {
    if i == 0 then lo else B.Fin(keys[i - 1])
  }

  function KidHi(keys: seq<int>, hi: B.Bound, i: nat): (b: B.Bound)
    requires i <= |keys|
  {
    if i == |keys| then hi else B.Fin(keys[i])
  }

  /** A separator leaves room for keys on both sides. */
  predicate Between(k: int, lo: B.Bound, hi: B.Bound) { B.Above(k, lo) && (hi.PosInf? || (hi.Fin? && k < hi.at)) }

  predicate Separators(keys: seq<int>, lo: B.Bound, hi: B.Bound) {
    && (forall i, j :: 0 <= i < j < |keys| ==> keys[i] < keys[j])
    && (forall i :: 0 <= i < |keys| ==> Between(keys[i], lo, hi))
  }

  /** A subtree of height `h` for keys in `(lo, hi]`: every separator bounds the keys on both of its sides. */
  predicate Ranged(n: Tree, h: nat, lo: B.Bound, hi: B.Bound) {
    && InPage(n)
    && match n
       case Leaf(_, items) => h == 0 && Ascending(items) && forall i :: 0 <= i < |items| ==>
         Within(items[i].key, lo, hi)
       case Inner(keys, kids) =>
         && h > 0 && |kids| == |keys| + 1 && Separators(keys, lo, hi)
         && forall i :: 0 <= i < |kids| ==> Ranged(kids[i], h - 1, KidLo(keys, lo, i), KidHi(keys, hi, i))
  }

  /** No leaf is empty. */
  predicate Filled(n: Tree, h: nat) {
    match n
    case Leaf(_, items) => items != []
    case Inner(_, kids) => h > 0 && kids != [] && forall i :: 0 <= i < |kids| ==> Filled(kids[i], h - 1)
  }

  /** The largest key of the last leaf, if that leaf holds any. */
  function MaxKey(n: Tree): (k: Option<int>) {
    match n
    case Leaf(_, items) => if items == [] then None else Some(items[|items| - 1].key)
    case Inner(_, kids) => if kids == [] then None else MaxKey(kids[|kids| - 1])
  }

  /** The last leaf is empty. */
  predicate Bare(n: Tree) { MaxKey(n).None? }

  lemma {:induction false} FilledNotBare(n: Tree, h: nat)
    requires Filled(n, h)
    ensures !Bare(n)
    decreases h
  {
    if n.Inner? {
      FilledNotBare(n.kids[|n.kids| - 1], h - 1);
    }
  }

  predicate Lower(a: B.Bound, b: B.Bound) { a.NegInf? || a == b || (a.Fin? && b.Fin? && a.at <= b.at) || b.PosInf? }

  lemma {:induction false} Widen(n: Tree, h: nat, lo: B.Bound, hi: B.Bound, lo': B.Bound)
    requires Ranged(n, h, lo, hi) && Lower(lo', lo)
    ensures Ranged(n, h, lo', hi)
    decreases h
  {
    if n.Inner? {
      forall i | 0 <= i < |n.kids| ensures Ranged(n.kids[i], h - 1, KidLo(n.keys, lo', i), KidHi(n.keys, hi, i)) {
        assert Ranged(n.kids[i], h - 1, KidLo(n.keys, lo, i), KidHi(n.keys, hi, i));
        if i == 0 {
          Widen(n.kids[0], h - 1, lo, KidHi(n.keys, hi, 0), lo');
        }
      }
    }
  }

  /** The walk down the last children finds a key that bounds the subtree from above. */
  lemma {:induction false} Shrink(n: Tree, h: nat, lo: B.Bound, hi: B.Bound)
    requires Ranged(n, h, lo, hi) && !Bare(n)
    ensures var m := MaxKey(n).value; Within(m, lo, hi) && Ranged(n, h, lo, B.Fin(m))
    decreases h
  {
    var m := MaxKey(n).value;
    if n.Leaf? {
      var last := |n.items| - 1;
      forall i | 0 <= i < |n.items| ensures n.items[i].key <= m {
        assert i < last ==> n.items[i].key < n.items[last].key;
      }
    } else {
      var l := |n.keys|;
      assert Ranged(n.kids[l], h - 1, KidLo(n.keys, lo, l), KidHi(n.keys, hi, l));
      Shrink(n.kids[l], h - 1, KidLo(n.keys, lo, l), hi);
      assert l > 0 ==> n.keys[l - 1] < m;
      ShrinkLast(n, h, lo, hi, m);
    }
  }

  lemma ShrinkLast(n: Tree, h: nat, lo: B.Bound, hi: B.Bound, m: int)
    requires n.Inner? && Ranged(n, h, lo, hi) && (|n.keys| > 0 ==> n.keys[|n.keys| - 1] < m) && B.UpTo(m, hi)
    requires Ranged(n.kids[|n.keys|], h - 1, KidLo(n.keys, lo, |n.keys|), B.Fin(m))
    ensures Ranged(n, h, lo, B.Fin(m))
  {
    var l := |n.keys|;
    forall i | 0 <= i < l ensures n.keys[i] < m {
      assert i < l - 1 ==> n.keys[i] < n.keys[l - 1];
    }
    forall i | 0 <= i < |n.kids| ensures Ranged(n.kids[i], h - 1, KidLo(n.keys, lo, i), KidHi(n.keys, B.Fin(m), i)) {
      assert Ranged(n.kids[i], h - 1, KidLo(n.keys, lo, i), KidHi(n.keys, hi, i));
    }
  }

  // ---------------------------------------------------------------------------------------
  // Two neighbours
  // ---------------------------------------------------------------------------------------

  /** Without its page limit, a node made of two neighbours is ranged like them. */
  predicate RangedBut(n: Tree, h: nat, lo: B.Bound, hi: B.Bound) {
    match n
    case Leaf(_, items) => h == 0 && Ascending(items) && forall i :: 0 <= i < |items| ==> Within(items[i].key, lo, hi)
    case Inner(keys, kids) =>
      && h > 0 && |kids| == |keys| + 1 && Separators(keys, lo, hi)
      && forall i :: 0 <= i < |kids| ==> Ranged(kids[i], h - 1, KidLo(keys, lo, i), KidHi(keys, hi, i))
  }

  lemma PairOf(l: Tree, r: Tree, h: nat, lo: B.Bound, mid: B.Bound, hi: B.Bound)
    requires Ranged(l, h, lo, mid) && Ranged(r, h, mid, hi)
    ensures Pair(l, r)
  {
  }

  lemma JoinRanged(l: Tree, sep: int, r: Tree, h: nat, lo: B.Bound, hi: B.Bound)
    requires Ranged(l, h, lo, B.Fin(sep)) && Ranged(r, h, B.Fin(sep), hi) && Between(sep, lo, hi)
    ensures Pair(l, r) && RangedBut(Join(l, sep, r), h, lo, hi)
  {
    if l.Inner? {
      JoinKeys(l.keys, sep, r.keys, lo, hi);
      var n := Join(l, sep, r);
      forall i | 0 <= i < |n.kids| ensures Ranged(n.kids[i], h - 1, KidLo(n.keys, lo, i), KidHi(n.keys, hi, i)) {
        JoinKid(l, sep, r, h, lo, hi, i);
      }
    }
  }

  lemma JoinKeys(a: seq<int>, sep: int, b: seq<int>, lo: B.Bound, hi: B.Bound)
    requires Separators(a, lo, B.Fin(sep)) && Separators(b, B.Fin(sep), hi) && Between(sep, lo, hi)
    ensures Separators(a + [sep] + b, lo, hi)
  {
  }

  lemma JoinKid(l: Tree, sep: int, r: Tree, h: nat, lo: B.Bound, hi: B.Bound, i: nat)
    requires l.Inner? && r.Inner? && Ranged(l, h, lo, B.Fin(sep)) && Ranged(r, h, B.Fin(sep), hi)
             && i < |l.kids| + |r.kids|
    ensures var n := Join(l, sep, r); Ranged(n.kids[i], h - 1, KidLo(n.keys, lo, i), KidHi(n.keys, hi, i))
  {
    var n := Join(l, sep, r);
    if i < |l.kids| {
      assert n.kids[i] == l.kids[i] && KidLo(n.keys, lo, i) == KidLo(l.keys, lo, i)
             && KidHi(n.keys, hi, i) == KidHi(l.keys, B.Fin(sep), i);
    } else {
      var j := i - |l.kids|;
      assert n.kids[i] == r.kids[j] && KidLo(n.keys, lo, i) == KidLo(r.keys, B.Fin(sep), j)
             && KidHi(n.keys, hi, i) == KidHi(r.keys, hi, j);
    }
  }

  /** An inner node cut at a separator. */
  lemma CutRanged(n: Tree, h: nat, lo: B.Bound, hi: B.Bound, m: nat)
    requires n.Inner? && RangedBut(n, h, lo, hi) && m < |n.keys|
    ensures RangedBut(CutLeft(n, m), h, lo, B.Fin(n.keys[m])) && RangedBut(CutRight(n, m), h, B.Fin(n.keys[m]), hi)
  {
    CutLeftRanged(n, h, lo, hi, m);
    CutRightRanged(n, h, lo, hi, m);
    hide RangedBut;
  }

  lemma CutLeftRanged(n: Tree, h: nat, lo: B.Bound, hi: B.Bound, m: nat)
    requires n.Inner? && RangedBut(n, h, lo, hi) && m < |n.keys|
    ensures RangedBut(CutLeft(n, m), h, lo, B.Fin(n.keys[m]))
  {
    hide Ranged;
    var l, sep := CutLeft(n, m), B.Fin(n.keys[m]);
    forall i | 0 <= i < |l.kids| ensures Ranged(l.kids[i], h - 1, KidLo(l.keys, lo, i), KidHi(l.keys, sep, i)) {
      assert Ranged(n.kids[i], h - 1, KidLo(n.keys, lo, i), KidHi(n.keys, hi, i));
    }
  }

  lemma CutRightRanged(n: Tree, h: nat, lo: B.Bound, hi: B.Bound, m: nat)
    requires n.Inner? && RangedBut(n, h, lo, hi) && m < |n.keys|
    ensures RangedBut(CutRight(n, m), h, B.Fin(n.keys[m]), hi)
  {
    hide Ranged;
    var r, sep := CutRight(n, m), B.Fin(n.keys[m]);
    forall i | 0 <= i < |r.kids| ensures Ranged(r.kids[i], h - 1, KidLo(r.keys, sep, i), KidHi(r.keys, hi, i)) {
      assert Ranged(n.kids[m + 1 + i], h - 1, KidLo(n.keys, lo, m + 1 + i), KidHi(n.keys, hi, m + 1 + i));
    }
  }

  /** Two neighbours redistributed keep their common range, with the new separator between them. */
  lemma SpreadRanged(l: Tree, sep: int, r: Tree, h: nat, lo: B.Bound, hi: B.Bound, m: nat)
    requires Ranged(l, h, lo, B.Fin(sep)) && Ranged(r, h, B.Fin(sep), hi) && Between(sep, lo, hi) && Pair(l, r)
    requires 0 < m < Slots(l) + Slots(r)
    ensures var k := SpreadKey(l, sep, r, m);
            && Between(k, lo, hi)
            && RangedBut(SpreadLeft(l, sep, r, m), h, lo, B.Fin(k))
               && RangedBut(SpreadRight(l, sep, r, m), h, B.Fin(k), hi)
  {
    JoinRanged(l, sep, r, h, lo, hi);
    var j := Join(l, sep, r);
    if l.Inner? {
      CutRanged(j, h, lo, hi, m);
    } else {
      CutItems(j.items, lo, hi, m);
    }
  }

  lemma CutItems(s: seq<Item>, lo: B.Bound, hi: B.Bound, m: nat)
    requires Ascending(s) && (forall i :: 0 <= i < |s| ==> Within(s[i].key, lo, hi)) && 0 < m < |s|
    ensures var k := s[m - 1].key;
            && Between(k, lo, hi) && Ascending(s[..m]) && Ascending(s[m..])
            && (forall i :: 0 <= i < m ==> Within(s[..m][i].key, lo, B.Fin(k)))
            && (forall i :: 0 <= i < |s| - m ==> Within(s[m..][i].key, B.Fin(k), hi))
  {
    var k := s[m - 1].key;
    assert k < s[m].key;
    forall i | 0 <= i < |s| ensures if i < m then s[i].key <= k else k < s[i].key {
      assert i < m - 1 ==> s[i].key < s[m - 1].key;
      assert m - 1 < i ==> s[m - 1].key < s[i].key;
    }
    assert forall i :: 0 <= i < |s| - m ==> s[m..][i] == s[m + i];
  }

  // ---------------------------------------------------------------------------------------
  // In the parent
  // ---------------------------------------------------------------------------------------

  /** The children `i` and `i + 1` become one; their separator and the second child are erased. */
  function MergeKids(n: Tree, i: nat, sep: int): (r: Tree)
    requires n.Inner? && i < |n.keys| == |n.kids| - 1 && n.kids[i].Leaf? == n.kids[i + 1].Leaf?
  {
    Inner(n.keys[..i] + n.keys[i + 1..], n.kids[..i] + [Join(n.kids[i], sep, n.kids[i + 1])] + n.kids[i + 2..])
  }

  lemma KidRanged(n: Tree, h: nat, lo: B.Bound, hi: B.Bound, i: nat)
    requires n.Inner? && Ranged(n, h, lo, hi) && i < |n.kids|
    ensures Ranged(n.kids[i], h - 1, KidLo(n.keys, lo, i), KidHi(n.keys, hi, i))
    ensures i < |n.keys| ==> Between(n.keys[i], KidLo(n.keys, lo, i), KidHi(n.keys, hi, i + 1))
  {
  }

  lemma ReplaceTwoByOne(n: Tree, h: nat, lo: B.Bound, hi: B.Bound, i: nat, j: Tree)
    requires n.Inner? && Ranged(n, h, lo, hi) && i < |n.keys|
    requires Ranged(j, h - 1, KidLo(n.keys, lo, i), KidHi(n.keys, hi, i + 1))
    ensures Ranged(Inner(n.keys[..i] + n.keys[i + 1..], n.kids[..i] + [j] + n.kids[i + 2..]), h, lo, hi)
  {
    var r := Inner(n.keys[..i] + n.keys[i + 1..], n.kids[..i] + [j] + n.kids[i + 2..]);
    SeparatorGone(n.keys, lo, hi, i);
    hide Separators, Between, Ascending, Within;
    forall k | 0 <= k < |r.kids| ensures Ranged(r.kids[k], h - 1, KidLo(r.keys, lo, k), KidHi(r.keys, hi, k)) {
      if k != i {
        KeptKid(n, h, lo, hi, i, k, r.keys, r.kids);
      }
    }
  }

  lemma SeparatorGone(keys: seq<int>, lo: B.Bound, hi: B.Bound, i: nat)
    requires Separators(keys, lo, hi) && i < |keys|
    ensures Separators(keys[..i] + keys[i + 1..], lo, hi)
    ensures var r := keys[..i] + keys[i + 1..];
            forall k :: 0 <= k < |r| ==> r[k] == keys[if k < i then k else k + 1]
  {
  }

  lemma KeptKid(n: Tree, h: nat, lo: B.Bound, hi: B.Bound, i: nat, k: nat, keys: seq<int>, kids: seq<Tree>)
    requires n.Inner? && Ranged(n, h, lo, hi) && i < |n.keys| && k < |n.keys| && k != i
    requires |keys| == |n.keys| - 1 && (forall x :: 0 <= x < |keys| ==> keys[x] == n.keys[if x < i then x else x + 1])
    requires |kids| == |n.keys| == |n.kids| - 1 && kids[k] == n.kids[if k < i then k else k + 1]
    ensures Ranged(kids[k], h - 1, KidLo(keys, lo, k), KidHi(keys, hi, k))
  {
    hide Ranged;
    var o := if k < i then k else k + 1;
    KidRanged(n, h, lo, hi, o);
    assert KidLo(keys, lo, k) == KidLo(n.keys, lo, o) && KidHi(keys, hi, k) == KidHi(n.keys, hi, o);
  }

  lemma ReplaceTwo(n: Tree, h: nat, lo: B.Bound, hi: B.Bound, i: nat, l: Tree, sep: int, r: Tree)
    requires n.Inner? && Ranged(n, h, lo, hi) && i < |n.keys|
             && Between(sep, KidLo(n.keys, lo, i), KidHi(n.keys, hi, i + 1))
    requires Ranged(l, h - 1, KidLo(n.keys, lo, i), B.Fin(sep))
             && Ranged(r, h - 1, B.Fin(sep), KidHi(n.keys, hi, i + 1))
    ensures Ranged(Inner(n.keys[i := sep], n.kids[..i] + [l, r] + n.kids[i + 2..]), h, lo, hi)
  {
    var t := Inner(n.keys[i := sep], n.kids[..i] + [l, r] + n.kids[i + 2..]);
    SeparatorMoved(n.keys, lo, hi, i, sep);
    hide Separators, Between, Ascending, Within;
    forall k | 0 <= k < |t.kids| ensures Ranged(t.kids[k], h - 1, KidLo(t.keys, lo, k), KidHi(t.keys, hi, k)) {
      if k != i && k != i + 1 {
        KidRanged(n, h, lo, hi, k);
        assert t.kids[k] == n.kids[k] && KidLo(t.keys, lo, k) == KidLo(n.keys, lo, k)
               && KidHi(t.keys, hi, k) == KidHi(n.keys, hi, k);
      }
    }
  }

  lemma SeparatorMoved(keys: seq<int>, lo: B.Bound, hi: B.Bound, i: nat, sep: int)
    requires Separators(keys, lo, hi) && i < |keys| && Between(sep, KidLo(keys, lo, i), KidHi(keys, hi, i + 1))
    ensures Separators(keys[i := sep], lo, hi)
  {
    forall k | 0 <= k < |keys| && k != i ensures if k < i then keys[k] < sep else sep < keys[k] {
      assert k < i - 1 ==> keys[k] < keys[i - 1];
      assert i + 1 < k ==> keys[i + 1] < keys[k];
    }
  }

  /** Merging two leaves, or two inner nodes around the subtree maximum of the left one, keeps all bounds. */
  lemma MergeKidsRanged(n: Tree, h: nat, lo: B.Bound, hi: B.Bound, i: nat, sep: int)
    requires n.Inner? && Ranged(n, h, lo, hi) && i < |n.keys|
    requires n.kids[i].Inner? ==> MaxKey(n.kids[i]) == Some(sep)
    requires n.kids[i].Leaf? ==> sep == n.keys[i]
    ensures n.kids[i].Leaf? == n.kids[i + 1].Leaf?
    ensures InPage(Join(n.kids[i], sep, n.kids[i + 1])) ==> Ranged(MergeKids(n, i, sep), h, lo, hi)
  {
    hide Ranged;
    var a, b, s := KidLo(n.keys, lo, i), KidHi(n.keys, hi, i + 1), n.keys[i];
    RangedShape(n, h, lo, hi);
    KidRanged(n, h, lo, hi, i);
    KidRanged(n, h, lo, hi, i + 1);
    PairOf(n.kids[i], n.kids[i + 1], h - 1, a, B.Fin(s), b);
    if n.kids[i].Inner? {
      Shrink(n.kids[i], h - 1, a, B.Fin(s));
      Widen(n.kids[i + 1], h - 1, B.Fin(s), b, B.Fin(sep));
    }
    JoinRanged(n.kids[i], sep, n.kids[i + 1], h - 1, a, b);
    var j := Join(n.kids[i], sep, n.kids[i + 1]);
    if InPage(j) {
      InPageRanged(j, h - 1, a, b);
      ReplaceTwoByOne(n, h, lo, hi, i, j);
    }
  }

  lemma RangedShape(n: Tree, h: nat, lo: B.Bound, hi: B.Bound)
    requires Ranged(n, h, lo, hi)
    ensures InPage(n) && (n.Leaf? <==> h == 0) && (n.Inner? ==> |n.kids| == |n.keys| + 1)
  {
  }

  lemma InPageRanged(n: Tree, h: nat, lo: B.Bound, hi: B.Bound)
    requires RangedBut(n, h, lo, hi) && InPage(n)
    ensures Ranged(n, h, lo, hi)
  {
  }

  /** Borrowing keeps all bounds. */
  lemma SpreadKidsRanged(n: Tree, h: nat, lo: B.Bound, hi: B.Bound, i: nat, m: nat)
    requires n.Inner? && Ranged(n, h, lo, hi) && i < |n.keys| && 0 < m < Slots(n.kids[i]) + Slots(n.kids[i + 1])
    ensures Pair(n.kids[i], n.kids[i + 1])
    ensures InPage(SpreadLeft(n.kids[i], n.keys[i], n.kids[i + 1], m))
            && InPage(SpreadRight(n.kids[i], n.keys[i], n.kids[i + 1], m))
            ==> Ranged(SpreadAt(n, i, m), h, lo, hi)
  {
    hide Ranged;
    var a, b, s := KidLo(n.keys, lo, i), KidHi(n.keys, hi, i + 1), n.keys[i];
    RangedShape(n, h, lo, hi);
    KidRanged(n, h, lo, hi, i);
    KidRanged(n, h, lo, hi, i + 1);
    var l, r := n.kids[i], n.kids[i + 1];
    PairOf(l, r, h - 1, a, B.Fin(s), b);
    SpreadRanged(l, s, r, h - 1, a, b, m);
    var l', r', k := SpreadLeft(l, s, r, m), SpreadRight(l, s, r, m), SpreadKey(l, s, r, m);
    if InPage(l') && InPage(r') {
      InPageRanged(l', h - 1, a, B.Fin(k));
      InPageRanged(r', h - 1, B.Fin(k), b);
      ReplaceTwo(n, h, lo, hi, i, l', k, r');
    }
  }

  // ---------------------------------------------------------------------------------------
  // Content and leaves
  // ---------------------------------------------------------------------------------------

  lemma MergeKidsContent(n: Tree, i: nat, sep: int)
    requires n.Inner? && i < |n.keys| == |n.kids| - 1 && n.kids[i].Leaf? == n.kids[i + 1].Leaf?
    ensures var c, d := Of(n), Of(MergeKids(n, i, sep));
            var a, b := OfAll(n.kids[..i]).ids, OfAll(n.kids[i + 2..]).ids;
            && d.items == c.items
            && (n.kids[i].Leaf? ==>
                  c.ids == a + [n.kids[i].id, n.kids[i + 1].id] + b && d.ids == a + [n.kids[i].id] + b)
            && (n.kids[i].Inner? ==> d.ids == c.ids)
  {
    var l, r, kids' := n.kids[i], n.kids[i + 1], MergeKids(n, i, sep).kids;
    assert Of(n).items == OfAll(n.kids).items && Of(MergeKids(n, i, sep)).items == OfAll(kids').items;
    OfAroundTwo(n.kids, i);
    OfMergeKids(n, i, sep);
    JoinContent(l, sep, r);
  }

  lemma OfMergeKids(n: Tree, i: nat, sep: int)
    requires n.Inner? && i < |n.keys| == |n.kids| - 1 && n.kids[i].Leaf? == n.kids[i + 1].Leaf?
    ensures OfAll(MergeKids(n, i, sep).kids) ==
            Plus(Plus(OfAll(n.kids[..i]), Of(Join(n.kids[i], sep, n.kids[i + 1]))), OfAll(n.kids[i + 2..]))
  {
    var j := Join(n.kids[i], sep, n.kids[i + 1]);
    OfReplaced(n.kids, i, 2, [j]);
    OfOne(j);
  }

  // ---------------------------------------------------------------------------------------
  // Empty leaves
  // ---------------------------------------------------------------------------------------

  /** A sibling has space for another one's entries iff both fit into one page. */
  lemma SpaceIs(l: Tree, sep: int, r: Tree)
    requires Pair(l, r)
    ensures HasSpace(l, Slots(r)) <==> InPage(Join(l, sep, r))
    ensures HasSpace(r, Slots(l)) <==> InPage(Join(l, sep, r))
  {
  }

  lemma JoinFilled(l: Tree, sep: int, r: Tree, h: nat)
    requires l.Leaf? == r.Leaf? && (Filled(l, h) || l.Leaf?) && (Filled(r, h) || r.Leaf?)
             && (Filled(l, h) || Filled(r, h))
    ensures Filled(Join(l, sep, r), h)
  {
  }

  lemma JoinBare(l: Tree, sep: int, r: Tree)
    requires Pair(l, r)
    ensures Bare(Join(l, sep, r)) <==> (if l.Leaf? then Bare(l) && Bare(r) else Bare(r))
  {
  }

  lemma SpreadFilled(l: Tree, sep: int, r: Tree, h: nat, m: nat)
    requires Pair(l, r) && 0 < m < Slots(l) + Slots(r) && (Filled(l, h) || l.Leaf?) && (Filled(r, h) || r.Leaf?)
    ensures Filled(SpreadLeft(l, sep, r, m), h) && Filled(SpreadRight(l, sep, r, m), h)
  {
  }
}
