/**
 The lock-coupling B+tree used by one thread: inserts with their eager splits, and removals with the
 repair that follows them. From an inner capacity of five on every inner page keeps a separator and
 every leaf below another page keeps an entry, so that no repair ever meets the failing assert.

 An insert that splits a full inner page starts over from the root; one such attempt is one call.
 */
module OlcSingle {
  import opened Options
  import opened StxNodes
  import opened StxSteps
  import opened StxLeafList
  import opened OlcMerge
  import opened OlcErase
  import B = OlcNodes

  predicate Full(n: Tree) {
    if n.Leaf? then Slots(n) == LEAF_ENTRIES else Slots(n) == INNER_ENTRIES - 1
  }

  function Route(n: Tree, k: int): (s: nat)
    requires n.Inner? && |n.kids| == |n.keys| + 1
    ensures s < |n.kids|
  {
    B.LowerBound(n.keys, k)
  }

  // ---------------------------------------------------------------------------------------
  // Where a key can be
  // ---------------------------------------------------------------------------------------

  lemma {:induction false} InOfAll(kids: seq<Tree>, x: Item) returns (i: nat)
    requires x in OfAll(kids).items
    ensures i < |kids| && x in Items(kids[i])
  {
    if x in Items(kids[0]) {
      i := 0;
    } else {
      i := InOfAll(kids[1..], x);
      i := i + 1;
    }
  }

  lemma KidWithin(keys: seq<int>, lo: B.Bound, hi: B.Bound, i: nat, k: int)
    requires Separators(keys, lo, hi) && i <= |keys| && Within(k, KidLo(keys, lo, i), KidHi(keys, hi, i))
    ensures Within(k, lo, hi)
  {
  }

  lemma {:induction false} ItemsWithin(n: Tree, h: nat, lo: B.Bound, hi: B.Bound, x: Item)
    requires Ranged(n, h, lo, hi) && x in Items(n)
    ensures Within(x.key, lo, hi)
    decreases h
  {
    if n.Inner? {
      var i := InOfAll(n.kids, x);
      KidRanged(n, h, lo, hi, i);
      ItemsWithin(n.kids[i], h - 1, KidLo(n.keys, lo, i), KidHi(n.keys, hi, i), x);
      KidWithin(n.keys, lo, hi, i, x.key);
    }
  }

  lemma RouteWithin(keys: seq<int>, lo: B.Bound, hi: B.Bound, i: nat, k: int)
    requires Separators(keys, lo, hi) && i <= |keys| && Within(k, lo, hi)
    ensures Within(k, KidLo(keys, lo, i), KidHi(keys, hi, i)) <==> i == B.LowerBound(keys, k)
  {
  }

  /** A child that a key is not routed to does not hold it. */
  lemma KidElsewhere(n: Tree, h: nat, lo: B.Bound, hi: B.Bound, k: int, i: nat, x: Item)
    requires n.Inner? && Ranged(n, h, lo, hi) && i < |n.kids| && i != Route(n, k) && x in Items(n.kids[i])
    ensures x.key != k
  {
    KidRanged(n, h, lo, hi, i);
    ItemsWithin(n.kids[i], h - 1, KidLo(n.keys, lo, i), KidHi(n.keys, hi, i), x);
    KidWithin(n.keys, lo, hi, i, x.key);
    RouteWithin(n.keys, lo, hi, i, x.key);
  }

  /** The items beside the routed child have other keys. */
  ghost predicate Elsewhere(n: Tree, k: int)
    requires n.Inner? && |n.kids| == |n.keys| + 1
  {
    var s := Route(n, k);
    forall x :: x in OfAll(n.kids[..s]).items || x in OfAll(n.kids[s + 1..]).items ==> x.key != k
  }

  lemma OthersElsewhere(n: Tree, h: nat, lo: B.Bound, hi: B.Bound, k: int)
    requires n.Inner? && Ranged(n, h, lo, hi)
    ensures Elsewhere(n, k)
  {
    assert |n.kids| == |n.keys| + 1;
    hide Ranged, OfAll, Of;
    var s := Route(n, k);
    forall x | x in OfAll(n.kids[..s]).items || x in OfAll(n.kids[s + 1..]).items ensures x.key != k {
      var i;
      if x in OfAll(n.kids[..s]).items {
        i := InOfAll(n.kids[..s], x);
      } else {
        i := InOfAll(n.kids[s + 1..], x);
        i := i + s + 1;
      }
      KidElsewhere(n, h, lo, hi, k, i, x);
    }
  }

  lemma HasMiddle(a: seq<Item>, c: seq<Item>, b: seq<Item>, k: int)
    requires forall x :: x in a || x in b ==> x.key != k
    ensures Has(a + c + b, k) <==> Has(c, k)
  {
    var s := a + c + b;
    if i :| 0 <= i < |c| && c[i].key == k {
      assert s[|a| + i] == c[i];
    }
    if j :| 0 <= j < |s| && s[j].key == k {
      assert s[j] in a || s[j] in b || s[j] in c;
    }
  }

  // ---------------------------------------------------------------------------------------
  // What an operation does to the items
  // ---------------------------------------------------------------------------------------

  /** Exactly the item with the key is gone. */
  ghost predicate Gone(s: seq<Item>, s': seq<Item>, k: int) {
    forall x :: x in s' <==> x in s && x.key != k
  }

  /** The item is added unless its key was there. */
  ghost predicate Added(s: seq<Item>, s': seq<Item>, it: Item) {
    forall x :: x in s' <==> x in s || (x == it && !Has(s, it.key))
  }

  lemma GoneAround(a: seq<Item>, c: seq<Item>, c': seq<Item>, b: seq<Item>, k: int)
    requires Gone(c, c', k) && forall x :: x in a || x in b ==> x.key != k
    ensures Gone(a + c + b, a + c' + b, k) && (Has(a + c + b, k) <==> Has(c, k))
  {
    HasMiddle(a, c, b, k);
  }

  lemma AddedAround(a: seq<Item>, c: seq<Item>, c': seq<Item>, b: seq<Item>, it: Item)
    requires Added(c, c', it) && forall x :: x in a || x in b ==> x.key != it.key
    ensures Added(a + c + b, a + c' + b, it) && (Has(a + c + b, it.key) <==> Has(c, it.key))
  {
    HasMiddle(a, c, b, it.key);
    hide Has;
  }

  // ---------------------------------------------------------------------------------------
  // One child replaced by one or by two
  // ---------------------------------------------------------------------------------------

  lemma KidPut(n: Tree, h: nat, lo: B.Bound, hi: B.Bound, s: nat, kid: Tree)
    requires n.Inner? && Ranged(n, h, lo, hi) && s < |n.kids|
    requires Ranged(kid, h - 1, KidLo(n.keys, lo, s), KidHi(n.keys, hi, s))
    ensures Ranged(Inner(n.keys, n.kids[s := kid]), h, lo, hi)
  {
    var n1 := Inner(n.keys, n.kids[s := kid]);
    forall i | 0 <= i < |n1.kids| ensures Ranged(n1.kids[i], h - 1, KidLo(n1.keys, lo, i), KidHi(n1.keys, hi, i)) {
      assert i != s ==> Ranged(n.kids[i], h - 1, KidLo(n.keys, lo, i), KidHi(n.keys, hi, i));
    }
  }

  lemma KidPutContent(n: Tree, s: nat, kid: Tree)
    requires n.Inner? && s < |n.kids|
    ensures var n1, a, b := Inner(n.keys, n.kids[s := kid]), OfAll(n.kids[..s]), OfAll(n.kids[s + 1..]);
            Of(n1).ids == a.ids + Of(kid).ids + b.ids && Items(n1) == a.items + Items(kid) + b.items
  {
    var n1 := Inner(n.keys, n.kids[s := kid]);
    KidContent(n1, s);
    assert n1.kids[..s] == n.kids[..s] && n1.kids[s + 1..] == n.kids[s + 1..];
  }

  lemma SeparatorNew(keys: seq<int>, lo: B.Bound, hi: B.Bound, s: nat, sep: int)
    requires Separators(keys, lo, hi) && s <= |keys| && Between(sep, KidLo(keys, lo, s), KidHi(keys, hi, s))
    ensures Separators(keys[..s] + [sep] + keys[s..], lo, hi) && B.LowerBound(keys, sep) == s
  {
    SeparatorPlace(keys, lo, hi, s, sep);
    var r := keys[..s] + [sep] + keys[s..];
    forall i | 0 <= i < |r|
      ensures r[i] == (if i < s then keys[i] else if i == s then sep else keys[i - 1]) && Between(r[i], lo, hi)
    {
    }
    hide Between;
  }

  lemma SeparatorPlace(keys: seq<int>, lo: B.Bound, hi: B.Bound, s: nat, sep: int)
    requires Separators(keys, lo, hi) && s <= |keys| && Between(sep, KidLo(keys, lo, s), KidHi(keys, hi, s))
    ensures (forall i :: 0 <= i < s ==> keys[i] < sep) && (forall i :: s <= i < |keys| ==> sep < keys[i])
    ensures Between(sep, lo, hi)
  {
  }

  lemma TwoPut(n: Tree, h: nat, lo: B.Bound, hi: B.Bound, s: nat, l: Tree, sep: int, r: Tree)
    requires n.Inner? && Ranged(n, h, lo, hi) && s < |n.kids| && !Full(n)
    requires Between(sep, KidLo(n.keys, lo, s), KidHi(n.keys, hi, s))
    requires Ranged(l, h - 1, KidLo(n.keys, lo, s), B.Fin(sep)) && Ranged(r, h - 1, B.Fin(sep), KidHi(n.keys, hi, s))
    ensures Ranged(AddKid(n, s, l, sep, r), h, lo, hi)
  {
    var t := AddKid(n, s, l, sep, r);
    SeparatorNew(n.keys, lo, hi, s, sep);
    hide Separators, Between, Within, Ascending;
    forall i | 0 <= i < |t.kids| ensures Ranged(t.kids[i], h - 1, KidLo(t.keys, lo, i), KidHi(t.keys, hi, i)) {
      if i < s || i > s + 1 {
        OldKid(n, h, lo, hi, s, l, sep, r, i);
      } else {
        assert t.keys[s] == sep;
      }
    }
  }

  lemma OldKid(n: Tree, h: nat, lo: B.Bound, hi: B.Bound, s: nat, l: Tree, sep: int, r: Tree, i: nat)
    requires n.Inner? && Ranged(n, h, lo, hi) && s < |n.kids| == |n.keys| + 1
    requires i <= |n.kids| && (i < s || i > s + 1)
    ensures var t := AddKid(n, s, l, sep, r);
            Ranged(t.kids[i], h - 1, KidLo(t.keys, lo, i), KidHi(t.keys, hi, i))
  {
    hide Ranged;
    var t, o := AddKid(n, s, l, sep, r), if i < s then i else i - 1;
    KidRanged(n, h, lo, hi, o);
    assert t.kids[i] == n.kids[o];
    assert forall j :: 0 <= j < |t.keys| && j != s ==> t.keys[j] == n.keys[if j < s then j else j - 1];
    assert KidLo(t.keys, lo, i) == KidLo(n.keys, lo, o) && KidHi(t.keys, hi, i) == KidHi(n.keys, hi, o);
  }

  /** Every inner node has a separator, and every leaf an entry. */
  ghost predicate Sturdy(n: Tree, h: nat) { Keyed(n) && Filled(n, h) }

  lemma SturdyPut(n: Tree, h: nat, s: nat, kid: Tree)
    requires n.Inner? && s < |n.kids| && Sturdy(n, h) && h > 0 && Sturdy(kid, h - 1)
    ensures Sturdy(Inner(n.keys, n.kids[s := kid]), h)
  {
  }

  lemma SturdyTwo(n: Tree, h: nat, s: nat, l: Tree, sep: int, r: Tree)
    requires n.Inner? && s < |n.kids| == |n.keys| + 1 && Sturdy(n, h) && h > 0 && Sturdy(l, h - 1) && Sturdy(r, h - 1)
    ensures Sturdy(AddKid(n, s, l, sep, r), h)
  {
    var t := AddKid(n, s, l, sep, r);
    forall i | 0 <= i < |t.kids| ensures Keyed(t.kids[i]) && Filled(t.kids[i], h - 1) {
      assert i < s ==> t.kids[i] == n.kids[i];
      assert i > s + 1 ==> t.kids[i] == n.kids[i - 1];
    }
  }

  // ---------------------------------------------------------------------------------------
  // Removing
  // ---------------------------------------------------------------------------------------

  lemma {:induction false} FilledHeight(n: Tree, h: nat, lo: B.Bound, hi: B.Bound, g: nat)
    requires Ranged(n, h, lo, hi) && Filled(n, g)
    ensures Filled(n, h)
    decreases h
  {
    if n.Inner? {
      forall i | 0 <= i < |n.kids| ensures Filled(n.kids[i], h - 1) {
        KidRanged(n, h, lo, hi, i);
        FilledHeight(n.kids[i], h - 1, KidLo(n.keys, lo, i), KidHi(n.keys, hi, i), g - 1);
      }
    }
  }

  /** What is left of `n` once `k` is removed from its leaf. */
  ghost predicate Taken(n: Tree, h: nat, lo: B.Bound, hi: B.Bound, k: int, n': Tree) {
    && Ranged(n', h, lo, hi) && n'.Leaf? == n.Leaf? && (n.Inner? ==> n'.keys == n.keys)
    && Of(n').ids == Of(n).ids && Gone(Items(n), Items(n'), k)
  }

  /** `path` leads from `n` to a leaf that is underfull iff `low` and empty iff `empty`. */
  ghost predicate LeadsTo(n: Tree, path: seq<nat>, low: bool, empty: bool) {
    && (empty ==> low)
    && if n.Leaf? then path == [] && (low <==> NeedMerge(n)) && (empty <==> n.items == [])
       else low ==> PathTo(n, path) && (Bare(LeafParent(n, path).kids[path[|path| - 1]]) <==> empty)
  }

  /** Of a sturdy tree only the leaf at the end of `path` may have become empty. */
  ghost predicate StillSturdy(n: Tree, h: nat, path: seq<nat>, low: bool, empty: bool) {
    && Keyed(n) && (!empty ==> Filled(n, h))
    && (n.Inner? && low ==> PathTo(n, path) && SparsePath(n, h, path))
  }

  lemma TakenUp(n: Tree, h: nat, lo: B.Bound, hi: B.Bound, k: int, kid: Tree)
    requires n.Inner? && Ranged(n, h, lo, hi)
    requires var s := Route(n, k); Taken(n.kids[s], h - 1, KidLo(n.keys, lo, s), KidHi(n.keys, hi, s), k, kid)
    ensures var s := Route(n, k);
            && Taken(n, h, lo, hi, k, Inner(n.keys, n.kids[s := kid]))
            && (Has(Items(n), k) <==> Has(Items(n.kids[s]), k))
  {
    var s := Route(n, k);
    assert |n.kids| == |n.keys| + 1;
    hide Ranged, Of, OfAll, Gone, Has, Route, Elsewhere;
    KidPut(n, h, lo, hi, s, kid);
    OthersElsewhere(n, h, lo, hi, k);
    GoneUp(n, k, kid);
  }

  lemma GoneUp(n: Tree, k: int, kid: Tree)
    requires n.Inner? && |n.kids| == |n.keys| + 1 && Elsewhere(n, k)
    requires Gone(Items(n.kids[Route(n, k)]), Items(kid), k) && Of(kid).ids == Of(n.kids[Route(n, k)]).ids
    ensures var n' := Inner(n.keys, n.kids[Route(n, k) := kid]);
            && Gone(Items(n), Items(n'), k) && Of(n').ids == Of(n).ids
            && (Has(Items(n), k) <==> Has(Items(n.kids[Route(n, k)]), k))
  {
    var s := Route(n, k);
    hide Of, OfAll, Gone, Has, Route;
    KidContent(n, s);
    KidPutContent(n, s, kid);
    GoneAround(OfAll(n.kids[..s]).items, Items(n.kids[s]), Items(kid), OfAll(n.kids[s + 1..]).items, k);
  }

  lemma LeadsUp(n: Tree, s: nat, kid: Tree, path: seq<nat>, low: bool, empty: bool)
    requires n.Inner? && s < |n.kids| == |n.keys| + 1 && LeadsTo(kid, path, low, empty)
    ensures LeadsTo(Inner(n.keys, n.kids[s := kid]), [s] + path, low, empty)
  {
    assert ([s] + path)[1..] == path;
    hide Bare, NeedMerge;
  }

  lemma SturdyUp(n: Tree, h: nat, s: nat, kid: Tree, path: seq<nat>, low: bool, empty: bool)
    requires n.Inner? && s < |n.kids| == |n.keys| + 1 && Sturdy(n, h)
    requires LeadsTo(kid, path, low, empty) && h > 0 && StillSturdy(kid, h - 1, path, low, empty)
    ensures StillSturdy(Inner(n.keys, n.kids[s := kid]), h, [s] + path, low, empty)
  {
    LeadsUp(n, s, kid, path, low, empty);
    var n' := Inner(n.keys, n.kids[s := kid]);
    assert ([s] + path)[1..] == path;
    assert forall i :: 0 <= i < |n'.kids| && i != s ==> n'.kids[i] == n.kids[i];
    hide Bare, NeedMerge;
  }

  /** The descent to the leaf of the key, and its removal there. */
  method RemoveAt(n: Tree, k: int, ghost h: nat, ghost lo: B.Bound, ghost hi: B.Bound)
    returns (n': Tree, path: seq<nat>, found: bool, low: bool, ghost empty: bool)
    requires Ranged(n, h, lo, hi)
    ensures Taken(n, h, lo, hi, k, n') && (found <==> Has(Items(n), k))
    ensures LeadsTo(n', path, low, empty) && (Sturdy(n, h) ==> StillSturdy(n', h, path, low, empty))
    decreases h
  {
    if n.Leaf? {
      WithoutIs(n.items, k);
      n', path := Leaf(n.id, Without(n.items, k)), [];
      found, low, empty := |n'.items| < |n.items|, NeedMerge(n'), n'.items == [];
      LeafTaken(n, lo, hi, k);
      hide Taken;
    } else {
      var s := Route(n, k);
      KidRanged(n, h, lo, hi, s);
      assert Sturdy(n, h) ==> Sturdy(n.kids[s], h - 1);
      hide Taken, LeadsTo, StillSturdy, Sturdy;
      var kid, below;
      kid, below, found, low, empty := RemoveAt(n.kids[s], k, h - 1, KidLo(n.keys, lo, s), KidHi(n.keys, hi, s));
      TakenUp(n, h, lo, hi, k, kid);
      LeadsUp(n, s, kid, below, low, empty);
      if Sturdy(n, h) {
        SturdyUp(n, h, s, kid, below, low, empty);
      }
      hide Ranged;
      n', path := Inner(n.keys, n.kids[s := kid]), [s] + below;
    }
  }

  lemma LeafTaken(n: Tree, lo: B.Bound, hi: B.Bound, k: int)
    requires n.Leaf? && Ranged(n, 0, lo, hi)
    ensures Taken(n, 0, lo, hi, k, Leaf(n.id, Without(n.items, k)))
  {
    WithoutIs(n.items, k);
    hide Without, Has;
    var n' := Leaf(n.id, Without(n.items, k));
    forall i | 0 <= i < |n'.items| ensures Within(n'.items[i].key, lo, hi) {
      assert n'.items[i] in n.items;
    }
    hide Within, Ascending;
  }

  /** What single-threaded use keeps: the tree invariant, a separator in every inner page, entries in every leaf. */
  ghost predicate Healthy(t: MergingTree)
    reads t
  {
    t.Valid() && Keyed(t.root) && (t.root.Inner? ==> exists h :: Filled(t.root, h))
  }

  lemma HealthyIs(t: MergingTree) returns (h: nat)
    requires Healthy(t)
    ensures Ranged(t.root, h, B.NegInf, B.PosInf) && (t.root.Inner? ==> Sturdy(t.root, h))
  {
    h :| Ranged(t.root, h, B.NegInf, B.PosInf);
    if t.root.Inner? {
      var g :| Filled(t.root, g);
      FilledHeight(t.root, h, B.NegInf, B.PosInf, g);
    }
  }

  /** An empty leaf below a node with a separator is merged or fed. */
  lemma {:induction false} EmptyServed(n: Tree, h: nat, lo: B.Bound, hi: B.Bound, path: seq<nat>)
    requires Ranged(n, h, lo, hi) && PathTo(n, path) && Keyed(n)
    requires Bare(LeafParent(n, path).kids[path[|path| - 1]])
    ensures Choose(LeafParent(n, path), path[|path| - 1]) != NoMerge
    decreases |path|
  {
    var s := path[0];
    if |path| == 1 {
      EmptyLeafServed(n, h, lo, hi, s);
    } else {
      KidRanged(n, h, lo, hi, s);
      assert Keyed(n.kids[s]);
      EmptyServed(n.kids[s], h - 1, KidLo(n.keys, lo, s), KidHi(n.keys, hi, s), path[1..]);
    }
  }

  /** Removes a key and repairs the leaf if it is underfull; the repair never fails. */
  method Remove(t: MergingTree, k: int) returns (found: bool)
    requires Healthy(t) && INNER_ENTRIES >= 4
    modifies t
    ensures Healthy(t) && Gone(old(Items(t.root)), Items(t.root), k) && (found <==> Has(old(Items(t.root)), k))
  {
    ghost var h := HealthyIs(t);
    hide Ranged, Gone, Has, Linked, Of, Sturdy;
    var n, path, low;
    ghost var empty;
    n, path, found, low, empty := RemoveAt(t.root, k, h, B.NegInf, B.PosInf);
    t.root := n;
    if low && n.Inner? {
      RepairPlan(n, h, path, low, empty);
      hide LeadsTo, StillSturdy;
      var ok, done := t.EraseMerge(path);
    }
  }

  /** What the repair of a sturdy tree's leaf can rely on. */
  lemma RepairPlan(n: Tree, h: nat, path: seq<nat>, low: bool, empty: bool)
    requires n.Inner? && Ranged(n, h, B.NegInf, B.PosInf) && low
    requires LeadsTo(n, path, low, empty) && StillSturdy(n, h, path, low, empty)
    ensures PathTo(n, path) && |path| == h && !FateOf(n, path).Breaks? && SparsePath(n, |path|, path) && Keyed(n)
    ensures Choose(LeafParent(n, path), path[|path| - 1]) == NoMerge ==> Filled(n, h)
  {
    PathHeight(n, h, B.NegInf, B.PosInf, path);
    KeyedNeverBreaks(n, h, B.NegInf, B.PosInf, path);
    if empty {
      EmptyServed(n, h, B.NegInf, B.PosInf, path);
    }
  }

  // ---------------------------------------------------------------------------------------
  // Inserting
  // ---------------------------------------------------------------------------------------

  /** An attempt either splits a page and changes no item, or has inserted the item unless its key was there. */
  ghost predicate Outcome(s: seq<Item>, s': seq<Item>, it: Item, done: bool, inserted: bool) {
    if done then Added(s, s', it) && (inserted <==> !Has(s, it.key)) else s' == s && !inserted
  }

  lemma OutcomeAround(a: seq<Item>, c: seq<Item>, c': seq<Item>, b: seq<Item>, it: Item, done: bool, inserted: bool)
    requires Outcome(c, c', it, done, inserted) && forall x :: x in a || x in b ==> x.key != it.key
    ensures Outcome(a + c + b, a + c' + b, it, done, inserted)
  {
    hide Added, Has;
    if done {
      AddedAround(a, c, c', b, it);
    }
  }

  /** Two pages for one, with a separator between them. */
  ghost predicate Halves(n: Tree, h: nat, lo: B.Bound, hi: B.Bound, l: Tree, sep: int, r: Tree) {
    && Between(sep, lo, hi) && Ranged(l, h, lo, B.Fin(sep)) && Ranged(r, h, B.Fin(sep), hi)
    && (Sturdy(n, h) && INNER_ENTRIES >= 5 ==> Sturdy(l, h) && Sturdy(r, h))
  }

  /** A full inner page is split in the middle. */
  method SplitInner(n: Tree, ghost h: nat, ghost lo: B.Bound, ghost hi: B.Bound) returns (l: Tree, sep: int, r: Tree)
    requires n.Inner? && Ranged(n, h, lo, hi) && Full(n)
    ensures Halves(n, h, lo, hi, l, sep, r)
    ensures Items(l) + Items(r) == Items(n) && Of(l).ids + Of(r).ids == Of(n).ids
  {
    var m := |n.keys| / 2 - 1;
    l, sep, r := CutLeft(n, m), n.keys[m], CutRight(n, m);
    CutContent(n, m);
    InnerHalves(n, h, lo, hi);
    hide Of, OfAll, Halves;
  }

  lemma InnerHalves(n: Tree, h: nat, lo: B.Bound, hi: B.Bound)
    requires n.Inner? && Ranged(n, h, lo, hi) && Full(n)
    ensures var m := |n.keys| / 2 - 1; Halves(n, h, lo, hi, CutLeft(n, m), n.keys[m], CutRight(n, m))
  {
    var m := |n.keys| / 2 - 1;
    assert |n.kids| == |n.keys| + 1 && Between(n.keys[m], lo, hi) && RangedBut(n, h, lo, hi);
    hide Sturdy, Ranged, RangedBut, Between;
    CutRanged(n, h, lo, hi, m);
    FitsPage(CutLeft(n, m), h, lo, B.Fin(n.keys[m]));
    FitsPage(CutRight(n, m), h, B.Fin(n.keys[m]), hi);
    if Sturdy(n, h) && INNER_ENTRIES >= 5 {
      CutSturdy(n, h, m);
    }
  }

  lemma FitsPage(n: Tree, h: nat, lo: B.Bound, hi: B.Bound)
    requires InPage(n) && RangedBut(n, h, lo, hi)
    ensures Ranged(n, h, lo, hi)
  {
  }

  lemma CutSturdy(n: Tree, h: nat, m: nat)
    requires n.Inner? && m < |n.keys| == |n.kids| - 1 && Sturdy(n, h) && 1 <= m && m + 1 < |n.keys|
    ensures Sturdy(CutLeft(n, m), h) && Sturdy(CutRight(n, m), h)
  {
  }

  lemma LeafAdded(items: seq<Item>, it: Item, lo: B.Bound, hi: B.Bound, id: nat)
    requires Ranged(Leaf(id, items), 0, lo, hi) && Within(it.key, lo, hi) && |items| < LEAF_ENTRIES
    ensures var s := Put(items, it);
            Ranged(Leaf(id, s), 0, lo, hi) && Added(items, s, it) && |items| <= |s|
  {
    if !Has(items, it.key) {
      InsertedIs(items, it);
      var s := Inserted(items, it);
      hide Inserted, Has;
      forall i | 0 <= i < |s| ensures Within(s[i].key, lo, hi) {
        assert s[i] == it || s[i] in items;
      }
    }
  }

  /** A full leaf is split in the middle, and the item put into the half it belongs to. */
  method SplitLeaf(n: Tree, it: Item, id: nat, ghost lo: B.Bound, ghost hi: B.Bound)
    returns (l: Tree, sep: int, r: Tree, inserted: bool)
    requires n.Leaf? && Ranged(n, 0, lo, hi) && Full(n) && Within(it.key, lo, hi)
    ensures Halves(n, 0, lo, hi, l, sep, r)
    ensures Outcome(n.items, Items(l) + Items(r), it, true, inserted)
    ensures Of(l).ids == [n.id] && Of(r).ids == [id]
  {
    var half := |n.items| / 2;
    var a, b := n.items[..half], n.items[half..];
    sep := a[half - 1].key;
    if it.key > sep {
      IntoRight(n, it, id, lo, hi, half);
      inserted := !Has(b, it.key);
      l, r := Leaf(n.id, a), Leaf(id, Put(b, it));
    } else {
      IntoLeft(n, it, id, lo, hi, half);
      inserted := !Has(a, it.key);
      l, r := Leaf(n.id, Put(a, it)), Leaf(id, b);
    }
    hide Has, Put, Halves, Outcome;
  }

  /** The item at its place, unless its key is there. */
  function Put(s: seq<Item>, it: Item): (r: seq<Item>)
    requires Ascending(s)
  {
    if Has(s, it.key) then s else Inserted(s, it)
  }

  lemma IntoRight(n: Tree, it: Item, id: nat, lo: B.Bound, hi: B.Bound, m: nat)
    requires n.Leaf? && Ranged(n, 0, lo, hi) && Within(it.key, lo, hi) && 0 < m < |n.items|
    requires it.key > n.items[m - 1].key
    ensures var a, b := n.items[..m], n.items[m..];
            && Halves(n, 0, lo, hi, Leaf(n.id, a), n.items[m - 1].key, Leaf(id, Put(b, it)))
            && Outcome(n.items, a + Put(b, it), it, true, !Has(b, it.key))
  {
    var a, b, sep := n.items[..m], n.items[m..], n.items[m - 1].key;
    LeafCut(n, id, lo, hi, m);
    assert a + b == n.items;
    hide Ranged, Put, Has, Added, Outcome, Ascending, Halves;
    SideOf(a, b, it.key);
    LeafAdded(b, it, B.Fin(sep), hi, id);
    LeafHalves(n, lo, hi, Leaf(n.id, a), sep, Leaf(id, Put(b, it)));
    AddedLast(a, b, Put(b, it), it);
  }

  lemma IntoLeft(n: Tree, it: Item, id: nat, lo: B.Bound, hi: B.Bound, m: nat)
    requires n.Leaf? && Ranged(n, 0, lo, hi) && Within(it.key, lo, hi) && 0 < m < |n.items|
    requires it.key <= n.items[m - 1].key
    ensures var a, b := n.items[..m], n.items[m..];
            && Halves(n, 0, lo, hi, Leaf(n.id, Put(a, it)), n.items[m - 1].key, Leaf(id, b))
            && Outcome(n.items, Put(a, it) + b, it, true, !Has(a, it.key))
  {
    var a, b, sep := n.items[..m], n.items[m..], n.items[m - 1].key;
    LeafCut(n, id, lo, hi, m);
    assert a + b == n.items;
    hide Ranged, Put, Has, Added, Outcome, Ascending, Halves;
    SideOf(a, b, it.key);
    LeafAdded(a, it, lo, B.Fin(sep), n.id);
    LeafHalves(n, lo, hi, Leaf(n.id, Put(a, it)), sep, Leaf(id, b));
    AddedFirst(a, Put(a, it), b, it);
  }

  lemma LeafCut(n: Tree, id: nat, lo: B.Bound, hi: B.Bound, m: nat)
    requires n.Leaf? && Ranged(n, 0, lo, hi) && 0 < m < |n.items|
    ensures var sep := n.items[m - 1].key;
            && Between(sep, lo, hi) && Ranged(Leaf(n.id, n.items[..m]), 0, lo, B.Fin(sep))
            && Ranged(Leaf(id, n.items[m..]), 0, B.Fin(sep), hi)
    ensures Ascending(n.items[..m]) && Ascending(n.items[m..]) && |n.items| <= LEAF_ENTRIES
  {
    assert Within(n.items[m].key, lo, hi) && Within(n.items[m - 1].key, lo, hi);
  }

  lemma LeafHalves(n: Tree, lo: B.Bound, hi: B.Bound, l: Tree, sep: int, r: Tree)
    requires n.Leaf? && l.Leaf? && r.Leaf? && l.items != [] && r.items != []
    requires Between(sep, lo, hi) && Ranged(l, 0, lo, B.Fin(sep)) && Ranged(r, 0, B.Fin(sep), hi)
    ensures Halves(n, 0, lo, hi, l, sep, r)
  {
    hide Ranged;
  }

  /** Keys up to the last of `a` are not in `b`, and others not in `a`. */
  lemma SideOf(a: seq<Item>, b: seq<Item>, k: int)
    requires Ascending(a + b) && a != []
    ensures forall x :: x in (if k > a[|a| - 1].key then a else b) ==> x.key != k
  {
    var s := a + b;
    assert forall i :: 0 <= i < |a| ==> s[i] == a[i];
    assert forall i :: 0 <= i < |b| ==> s[|a| + i] == b[i];
  }

  lemma AddedFirst(c: seq<Item>, c': seq<Item>, b: seq<Item>, it: Item)
    requires Added(c, c', it) && forall x :: x in b ==> x.key != it.key
    ensures Outcome(c + b, c' + b, it, true, !Has(c, it.key))
  {
    AddedAround([], c, c', b, it);
    assert [] + c == c && [] + c' == c';
    hide Has;
  }

  lemma AddedLast(a: seq<Item>, c: seq<Item>, c': seq<Item>, it: Item)
    requires Added(c, c', it) && forall x :: x in a ==> x.key != it.key
    ensures Outcome(a + c, a + c', it, true, !Has(c, it.key))
  {
    AddedAround(a, c, c', [], it);
    assert a + c + [] == a + c && a + c' + [] == a + c';
    hide Has;
  }

  /** A new leaf joins the chain behind `l`. */
  lemma LinkBehind(next: map<nat, Ptr>, a: seq<nat>, l: nat, id: nat, b: seq<nat>)
    requires Linked(next, a + [l] + b) && id !in next
    ensures l in next && Linked(next[id := next[l]][l := To(id)], a + ([l] + [id]) + b)
  {
    var ids, ids', p := a + [l] + b, a + ([l] + [id]) + b, |a|;
    assert ids[p] == l && ids[p] in next;
    var next' := next[id := next[l]][l := To(id)];
    forall i | 0 <= i < |ids'| && i != p + 1 ensures ids'[i] == ids[if i <= p then i else i - 1] {
    }
    assert id !in ids;
    forall i | 0 <= i < |ids'| ensures ids'[i] in next' && next'[ids'[i]] == NextOf(ids', i) {
      var k := if i <= p then i else i - 1;
      assert ids[k] in next && next[ids[k]] == NextOf(ids, k);
    }
  }

  /** A full page is split; the item goes along if it is a leaf. */
  method SplitPage(t: MergingTree, n: Tree, it: Item, id: nat, ghost h: nat, ghost lo: B.Bound, ghost hi: B.Bound,
                   ghost pre: seq<nat>, ghost post: seq<nat>)
    returns (l: Tree, sep: int, r: Tree, done: bool, inserted: bool)
    requires Ranged(n, h, lo, hi) && Full(n) && Within(it.key, lo, hi)
    requires Linked(t.next, pre + Of(n).ids + post) && id !in t.next
    modifies t`next
    ensures Halves(n, h, lo, hi, l, sep, r) && Outcome(Items(n), Items(l) + Items(r), it, done, inserted)
    ensures Linked(t.next, pre + (Of(l).ids + Of(r).ids) + post)
  {
    if n.Inner? {
      hide Linked, Halves, Of, Ranged;
      l, sep, r := SplitInner(n, h, lo, hi);
      done, inserted := false, false;
    } else {
      LinkBehind(t.next, pre, n.id, id, post);
      hide Linked, Halves, Outcome;
      l, sep, r, inserted := SplitLeaf(n, it, id, lo, hi);
      done := true;
      t.next := t.next[id := t.next[n.id]][n.id := To(id)];
    }
  }

  /** What an attempt below a node that is not full leaves. */
  ghost predicate Tried(n: Tree, h: nat, lo: B.Bound, hi: B.Bound, n': Tree, it: Item, done: bool, inserted: bool) {
    && n.Inner? && n'.Inner? && Ranged(n', h, lo, hi) && |n.keys| <= |n'.keys|
    && Outcome(Items(n), Items(n'), it, done, inserted)
    && (Sturdy(n, h) && INNER_ENTRIES >= 5 ==> Sturdy(n', h))
  }

  /** The routed child replaced by its two halves. */
  lemma SplitUp(n: Tree, h: nat, lo: B.Bound, hi: B.Bound, it: Item, l: Tree, sep: int, r: Tree, done: bool,
                inserted: bool)
    requires n.Inner? && Ranged(n, h, lo, hi) && !Full(n)
    requires var s := Route(n, it.key);
             && Halves(n.kids[s], h - 1, KidLo(n.keys, lo, s), KidHi(n.keys, hi, s), l, sep, r)
             && Outcome(Items(n.kids[s]), Items(l) + Items(r), it, done, inserted)
    ensures var s := Route(n, it.key);
            Tried(n, h, lo, hi, AddKid(n, s, l, sep, r), it, done, inserted) && B.LowerBound(n.keys, sep) == s
  {
    var s := Route(n, it.key);
    TwoPut(n, h, lo, hi, s, l, sep, r);
    SeparatorNew(n.keys, lo, hi, s, sep);
    OthersElsewhere(n, h, lo, hi, it.key);
    assert |n.kids| == |n.keys| + 1 && h > 0;
    if Sturdy(n, h) && INNER_ENTRIES >= 5 {
      assert Sturdy(n.kids[s], h - 1);
      SturdyTwo(n, h, s, l, sep, r);
    }
    hide Ranged, Of, OfAll, Outcome, Route, Sturdy, Halves, Separators, Between;
    ContentUp(n, it, l, sep, r, done, inserted);
  }

  lemma ContentUp(n: Tree, it: Item, l: Tree, sep: int, r: Tree, done: bool, inserted: bool)
    requires n.Inner? && |n.kids| == |n.keys| + 1 && Elsewhere(n, it.key)
    requires Outcome(Items(n.kids[Route(n, it.key)]), Items(l) + Items(r), it, done, inserted)
    ensures Outcome(Items(n), Items(AddKid(n, Route(n, it.key), l, sep, r)), it, done, inserted)
  {
    var s := Route(n, it.key);
    hide Of, OfAll, Outcome, Route;
    KidContent(n, s);
    AddKidContent(n, s, l, sep, r);
    OutcomeAround(OfAll(n.kids[..s]).items, Items(n.kids[s]), Items(l) + Items(r), OfAll(n.kids[s + 1..]).items, it,
                  done, inserted);
  }

  /** The routed child replaced by what the attempt made of it. */
  lemma KidUp(n: Tree, h: nat, lo: B.Bound, hi: B.Bound, it: Item, kid: Tree, done: bool, inserted: bool)
    requires n.Inner? && Ranged(n, h, lo, hi)
    requires var s := Route(n, it.key);
             && Ranged(kid, h - 1, KidLo(n.keys, lo, s), KidHi(n.keys, hi, s))
             && Outcome(Items(n.kids[s]), Items(kid), it, done, inserted)
             && (Sturdy(n.kids[s], h - 1) && INNER_ENTRIES >= 5 ==> Sturdy(kid, h - 1))
    ensures Tried(n, h, lo, hi, Inner(n.keys, n.kids[Route(n, it.key) := kid]), it, done, inserted)
  {
    var s := Route(n, it.key);
    KidPut(n, h, lo, hi, s, kid);
    OthersElsewhere(n, h, lo, hi, it.key);
    assert |n.kids| == |n.keys| + 1 && h > 0;
    if Sturdy(n, h) && INNER_ENTRIES >= 5 {
      assert Sturdy(n.kids[s], h - 1);
      SturdyPut(n, h, s, kid);
    }
    hide Ranged, Of, OfAll, Outcome, Route, Sturdy;
    KidContentUp(n, it, kid, done, inserted);
  }

  lemma KidContentUp(n: Tree, it: Item, kid: Tree, done: bool, inserted: bool)
    requires n.Inner? && |n.kids| == |n.keys| + 1 && Elsewhere(n, it.key)
    requires Outcome(Items(n.kids[Route(n, it.key)]), Items(kid), it, done, inserted)
    ensures Outcome(Items(n), Items(Inner(n.keys, n.kids[Route(n, it.key) := kid])), it, done, inserted)
  {
    var s := Route(n, it.key);
    hide Of, OfAll, Outcome, Route;
    KidContent(n, s);
    KidPutContent(n, s, kid);
    OutcomeAround(OfAll(n.kids[..s]).items, Items(n.kids[s]), Items(kid), OfAll(n.kids[s + 1..]).items, it, done,
                  inserted);
  }

  lemma KidForKey(n: Tree, h: nat, lo: B.Bound, hi: B.Bound, k: int)
    requires n.Inner? && Ranged(n, h, lo, hi) && Within(k, lo, hi)
    ensures |n.kids| == |n.keys| + 1 && h > 0
    ensures var s := Route(n, k);
            && Ranged(n.kids[s], h - 1, KidLo(n.keys, lo, s), KidHi(n.keys, hi, s))
            && Within(k, KidLo(n.keys, lo, s), KidHi(n.keys, hi, s))
  {
    RouteWithin(n.keys, lo, hi, Route(n, k), k);
  }

  /** One attempt below a node that is not full. */
  method InsertBelow(t: MergingTree, n: Tree, it: Item, id: nat, ghost h: nat, ghost lo: B.Bound, ghost hi: B.Bound,
                     ghost pre: seq<nat>, ghost post: seq<nat>)
    returns (n': Tree, done: bool, inserted: bool)
    requires n.Inner? && Ranged(n, h, lo, hi) && !Full(n) && Within(it.key, lo, hi)
    requires Linked(t.next, pre + Of(n).ids + post) && id !in t.next
    modifies t`next
    decreases h, 0
    ensures Tried(n, h, lo, hi, n', it, done, inserted) && Linked(t.next, pre + Of(n').ids + post)
  {
    var s := Route(n, it.key);
    KidForKey(n, h, lo, hi, it.key);
    hide Ranged, Linked, Of, OfAll, Within, Tried, Halves, Outcome, Separators, Route, KidLo, KidHi, Full;
    KidContent(n, s);
    ghost var a, b := OfAll(n.kids[..s]).ids, OfAll(n.kids[s + 1..]).ids;
    ghost var klo, khi := KidLo(n.keys, lo, s), KidHi(n.keys, hi, s);
    Regroup(pre, a, Of(n.kids[s]).ids, b, post);
    if Full(n.kids[s]) {
      var l, sep, r;
      l, sep, r, done, inserted := SplitPage(t, n.kids[s], it, id, h - 1, klo, khi, pre + a, b + post);
      SplitUp(n, h, lo, hi, it, l, sep, r, done, inserted);
      n' := AddKid(n, B.LowerBound(n.keys, sep), l, sep, r);
      AddKidContent(n, s, l, sep, r);
      Regroup(pre, a, Of(l).ids + Of(r).ids, b, post);
    } else {
      var kid;
      kid, done, inserted := InsertInto(t, n.kids[s], it, id, h - 1, klo, khi, pre + a, b + post);
      KidUp(n, h, lo, hi, it, kid, done, inserted);
      n' := Inner(n.keys, n.kids[s := kid]);
      KidPutContent(n, s, kid);
      Regroup(pre, a, Of(kid).ids, b, post);
    }
  }

  /** One attempt at a page that is not full. */
  method InsertInto(t: MergingTree, n: Tree, it: Item, id: nat, ghost h: nat, ghost lo: B.Bound, ghost hi: B.Bound,
                    ghost pre: seq<nat>, ghost post: seq<nat>)
    returns (n': Tree, done: bool, inserted: bool)
    requires Ranged(n, h, lo, hi) && !Full(n) && Within(it.key, lo, hi)
    requires Linked(t.next, pre + Of(n).ids + post) && id !in t.next
    modifies t`next
    decreases h, 1
    ensures Ranged(n', h, lo, hi) && n'.Leaf? == n.Leaf? && (n.Inner? ==> |n.keys| <= |n'.keys|)
    ensures Outcome(Items(n), Items(n'), it, done, inserted) && Linked(t.next, pre + Of(n').ids + post)
    ensures Sturdy(n, h) && INNER_ENTRIES >= 5 ==> Sturdy(n', h)
  {
    hide Linked;
    if n.Leaf? {
      LeafAdded(n.items, it, lo, hi, n.id);
      n', done, inserted := Leaf(n.id, Put(n.items, it)), true, !Has(n.items, it.key);
      hide Has, Added, Put, Ranged;
    } else {
      n', done, inserted := InsertBelow(t, n, it, id, h, lo, hi, pre, post);
      hide Ranged, Outcome, Sturdy;
    }
  }

  /** One attempt at inserting: after it the item is in, or a full inner page on its way is split. */
  method TryInsert(t: MergingTree, it: Item, id: nat) returns (done: bool, inserted: bool)
    requires Healthy(t) && id !in t.next && INNER_ENTRIES >= 5
    modifies t
    ensures Healthy(t) && Outcome(old(Items(t.root)), Items(t.root), it, done, inserted)
  {
    ghost var h := HealthyIs(t);
    var n := t.root;
    NothingAround(Of(n).ids);
    assert Within(it.key, B.NegInf, B.PosInf);
    hide Ranged, Linked, Of, OfAll, Outcome, Within;
    if Full(n) {
      var l, sep, r;
      FullLeafSturdy(n, h);
      l, sep, r, done, inserted := SplitPage(t, n, it, id, h, B.NegInf, B.PosInf, [], []);
      NewRootOk(n, h, l, sep, r);
      NothingAround(Of(l).ids + Of(r).ids);
      t.root := Inner([sep], [l, r]);
      assert Filled(t.root, h + 1);
    } else {
      var n';
      n', done, inserted := InsertInto(t, n, it, id, h, B.NegInf, B.PosInf, [], []);
      NothingAround(Of(n').ids);
      t.root := n';
      assert n'.Inner? ==> Filled(n', h);
    }
  }

  lemma FullLeafSturdy(n: Tree, h: nat)
    requires Full(n) && (n.Inner? ==> Sturdy(n, h))
    ensures Sturdy(n, h)
  {
  }

  lemma NewRootOk(n: Tree, h: nat, l: Tree, sep: int, r: Tree)
    requires Halves(n, h, B.NegInf, B.PosInf, l, sep, r) && Sturdy(n, h) && INNER_ENTRIES >= 5
    ensures var t := Inner([sep], [l, r]);
            && Ranged(t, h + 1, B.NegInf, B.PosInf) && Sturdy(t, h + 1)
            && Items(t) == Items(l) + Items(r) && Of(t).ids == Of(l).ids + Of(r).ids
  {
    TwoRanged(l, sep, r, h, B.NegInf, B.PosInf);
    OfTwo(l, r);
    hide Ranged, Of, OfAll;
  }

  // ---------------------------------------------------------------------------------------
  // Runs of one thread
  // ---------------------------------------------------------------------------------------

  datatype Call = InsertCall(it: Item) | RemoveCall(key: int)

  /** The items are those of the map. */
  ghost predicate Lists(s: seq<Item>, m: map<int, int>) {
    forall x: Item :: x in s <==> x.key in m && m[x.key] == x.val
  }

  lemma HasIsIn(s: seq<Item>, m: map<int, int>, k: int)
    requires Lists(s, m)
    ensures Has(s, k) <==> k in m
  {
    if k in m {
      assert Item(k, m[k]) in s;
    }
    if i :| 0 <= i < |s| && s[i].key == k {
      assert s[i] in s;
    }
  }

  /** What a call does to the map; an attempt that only splits a page does nothing. */
  function Effect(m: map<int, int>, call: Call, done: bool): (m': map<int, int>) {
    match call
    case InsertCall(it) => if done && it.key !in m then m[it.key := it.val] else m
    case RemoveCall(k) => m - {k}
  }

  function Replay(calls: seq<Call>, dones: seq<bool>): (m: map<int, int>)
    requires |dones| == |calls|
  {
    if calls == [] then map[]
    else
      var last := |calls| - 1;
      Effect(Replay(calls[..last], dones[..last]), calls[last], dones[last])
  }

  lemma InsertLists(s: seq<Item>, s': seq<Item>, m: map<int, int>, it: Item, done: bool, inserted: bool)
    requires Lists(s, m) && Outcome(s, s', it, done, inserted)
    ensures Lists(s', Effect(m, InsertCall(it), done)) && (done ==> (inserted <==> it.key !in m))
  {
    HasIsIn(s, m, it.key);
    hide Has;
  }

  lemma RemoveLists(s: seq<Item>, s': seq<Item>, m: map<int, int>, k: int)
    requires Lists(s, m) && Gone(s, s', k)
    ensures Lists(s', Effect(m, RemoveCall(k), true)) && (Has(s, k) <==> k in m)
  {
    HasIsIn(s, m, k);
    hide Has;
  }

  lemma ReplayMore(calls: seq<Call>, dones: seq<bool>, n: nat, done: bool)
    requires n < |calls| && |dones| == n
    ensures Replay(calls[..n + 1], dones + [done]) == Effect(Replay(calls[..n], dones), calls[n], done)
  {
    assert calls[..n + 1][..n] == calls[..n] && (dones + [done])[..n] == dones;
  }

  /** An identity that no leaf has. */
  method Unused(next: map<nat, Ptr>) returns (id: nat)
    ensures id !in next
  {
    id := 0;
    var rest := next.Keys;
    while rest != {}
      invariant rest <= next.Keys && forall k :: k in next.Keys && k !in rest ==> k < id
      decreases |rest|
    {
      var k :| k in rest;
      rest, id := rest - {k}, if k < id then id else k + 1;
    }
  }

  /** One call; its result says whether the map was changed, for a removal and for an insert that has come through. */
  method Serve(t: MergingTree, call: Call, ghost m: map<int, int>) returns (done: bool, changed: bool)
    requires Healthy(t) && INNER_ENTRIES >= 5 && Lists(Items(t.root), m)
    modifies t
    ensures Healthy(t) && Lists(Items(t.root), Effect(m, call, done)) && (call.RemoveCall? ==> done)
    ensures done ==> (changed <==> Effect(m, call, done) != m)
  {
    hide Healthy, Lists, Outcome, Gone, Has;
    match call
    case InsertCall(it) =>
      var id := Unused(t.next);
      ghost var s := Items(t.root);
      done, changed := TryInsert(t, it, id);
      InsertLists(s, Items(t.root), m, it, done, changed);
    case RemoveCall(k) =>
      ghost var s := Items(t.root);
      changed := Remove(t, k);
      done := true;
      RemoveLists(s, Items(t.root), m, k);
  }

  /**
   Any sequence of insert attempts and removals by one thread, from the empty tree on: no repair fails,
   and the tree holds what replaying the calls gives.
   */
  method Run(calls: seq<Call>) returns (t: MergingTree, dones: seq<bool>)
    requires INNER_ENTRIES >= 5
    ensures fresh(t) && Healthy(t) && |dones| == |calls| && Lists(Items(t.root), Replay(calls, dones))
  {
    t := new MergingTree(0);
    dones := [];
    for n := 0 to |calls|
      invariant fresh(t) && Healthy(t) && |dones| == n && Lists(Items(t.root), Replay(calls[..n], dones))
    {
      hide Healthy, Lists, Replay;
      ReplayMore(calls, dones, n, true);
      ReplayMore(calls, dones, n, false);
      var done, changed := Serve(t, calls[n], Replay(calls[..n], dones));
      dones := dones + [done];
    }
    assert calls[..|calls|] == calls;
  }
}
