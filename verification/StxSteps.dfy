/**
 What the node-level steps of insertion and deletion do to shape and content: routing, adding a child,
 cutting an inner node in two, merging and shifting siblings.
 */
module StxSteps {
  import opened StxNodes

  // ---------------------------------------------------------------------------------------
  // Routing
  // ---------------------------------------------------------------------------------------

  /** The child slot for a key: all separators before it are smaller, its own is not. */
  predicate IsSlot(keys: seq<int>, key: int, slot: nat) {
    && slot <= |keys|
    && (forall i :: 0 <= i < slot ==> keys[i] < key)
    && (slot < |keys| ==> key <= keys[slot])
  }

  function Before(n: Node, slot: nat): (s: seq<Item>)
    requires n.Inner? && slot <= |n.kids|
  {
    OfAll(n.kids[..slot]).items
  }

  function After(n: Node, slot: nat): (s: seq<Item>)
    requires n.Inner? && slot < |n.kids|
  {
    OfAll(n.kids[slot + 1..]).items
  }

  lemma AroundChild(n: Node, slot: nat)
    requires n.Inner? && slot < |n.kids|
    ensures Items(n) == Before(n, slot) + Items(n.kids[slot]) + After(n, slot)
  {
    OfSplit(n.kids, slot, 1);
    assert n.kids[slot..slot + 1] == [n.kids[slot]];
    OfOne(n.kids[slot]);
  }

  /** Only the routed child can hold the key. */
  lemma Route(n: Node, h: nat, key: int, slot: nat)
    requires Sound(n, h) && n.Inner? && IsSlot(n.keys, key, slot)
    ensures Items(n) == Before(n, slot) + Items(n.kids[slot]) + After(n, slot)
    ensures Middle(Before(n, slot), After(n, slot), key)
    ensures Sound(n.kids[slot], h - 1) && !IsUnderflow(n.kids[slot])
  {
    AroundChild(n, slot);
    var a, e, b := Before(n, slot), Items(n.kids[slot]), After(n, slot);
    AscendingParts(a + e, b);
    AscendingParts(a, e);
    if slot > 0 {
      NotEmpty(n.kids[slot - 1], h - 1);
      LastBefore(n, slot);
    }
    NotEmpty(n.kids[slot], h - 1);
    if slot < |n.keys| {
      assert e[|e| - 1].key == n.keys[slot];
      assert (a + e)[|a| + |e| - 1] == e[|e| - 1];
    } else {
      assert n.kids[slot + 1..] == [];
    }
  }

  lemma LastBefore(n: Node, slot: nat)
    requires n.Inner? && 0 < slot <= |n.kids| && Items(n.kids[slot - 1]) != []
    ensures var a := Before(n, slot); a != [] && a[|a| - 1].key == Last(n.kids[slot - 1])
  {
    var k := n.kids[slot - 1];
    assert n.kids[..slot] == n.kids[..slot - 1] + [k];
    OfAllAppend(n.kids[..slot - 1], [k]);
    OfOne(k);
    LastOfAppend(OfAll(n.kids[..slot - 1]).items, Items(k));
  }

  /** The largest key of an inner node is the largest key of its last child. */
  lemma LastOfInner(n: Node, h: nat)
    requires n.Inner? && Built(n, h)
    ensures Last(n) == Last(n.kids[|n.keys|])
  {
    NotEmpty(n.kids[|n.keys|], h - 1);
    LastBefore(n, |n.kids|);
    assert n.kids[..|n.kids|] == n.kids;
  }

  // ---------------------------------------------------------------------------------------
  // Growing
  // ---------------------------------------------------------------------------------------

  /** A child was split: its left half stays at `slot`, a separator and its right half follow. */
  function AddKid(n: Node, slot: nat, kid: Node, key: int, twin: Node): (r: Node)
    requires n.Inner? && slot < |n.kids| == |n.keys| + 1
  {
    Inner(n.keys[..slot] + [key] + n.keys[slot..], n.kids[..slot] + [kid, twin] + n.kids[slot + 1..])
  }

  lemma AddKidShape(n: Node, h: nat, slot: nat, kid: Node, key: int, twin: Node)
    requires n.Inner? && Built(n, h) && slot < |n.kids|
    requires Built(kid, h - 1) && Built(twin, h - 1) && Fitting(kid) && Fitting(twin)
    requires key == Last(kid) && (slot < |n.keys| ==> Last(twin) == n.keys[slot])
    ensures Built(AddKid(n, slot, kid, key, twin), h)
  {
    var r := AddKid(n, slot, kid, key, twin);
    forall i | 0 <= i < |r.kids| ensures Built(r.kids[i], h - 1) && Fitting(r.kids[i]) {
      AddKidAt(n, slot, kid, key, twin, i);
    }
    forall i | 0 <= i < |r.keys| ensures r.keys[i] == Last(r.kids[i]) {
      AddKidAt(n, slot, kid, key, twin, i);
    }
  }

  lemma AddKidAt(n: Node, slot: nat, kid: Node, key: int, twin: Node, i: nat)
    requires n.Inner? && slot < |n.kids| == |n.keys| + 1 && i < |n.kids| + 1
    ensures var r := AddKid(n, slot, kid, key, twin);
            && |r.kids| == |r.keys| + 1 == |n.kids| + 1
            && r.kids[i] == (if i < slot then n.kids[i] else if i == slot then kid else if i == slot + 1 then twin
                             else n.kids[i - 1])
            && (i < |r.keys| ==> r.keys[i] == if i < slot then n.keys[i] else if i == slot then key else n.keys[i - 1])
  {
  }

  lemma AddKidContent(n: Node, slot: nat, kid: Node, key: int, twin: Node)
    requires n.Inner? && slot < |n.kids| == |n.keys| + 1
    ensures var a, b := OfAll(n.kids[..slot]), OfAll(n.kids[slot + 1..]);
            var mid := Plus(Of(kid), Of(twin));
            Of(AddKid(n, slot, kid, key, twin)) ==
              Content(a.items + mid.items + b.items, a.ids + mid.ids + b.ids, a.inners + mid.inners + b.inners + 1)
  {
    OfReplaced(n.kids, slot, 1, [kid, twin]);
    OfTwo(kid, twin);
  }

  /** The children before and after position `m`, with the separator between them left over. */
  function CutLeft(n: Node, m: nat): (r: Node)
    requires n.Inner? && m < |n.keys| == |n.kids| - 1
  {
    Inner(n.keys[..m], n.kids[..m + 1])
  }

  function CutRight(n: Node, m: nat): (r: Node)
    requires n.Inner? && m < |n.keys| == |n.kids| - 1
  {
    Inner(n.keys[m + 1..], n.kids[m + 1..])
  }

  lemma CutShape(n: Node, h: nat, m: nat)
    requires n.Inner? && Built(n, h) && m < |n.keys|
    ensures Built(CutLeft(n, m), h) && Built(CutRight(n, m), h)
    ensures n.keys[m] == Last(CutLeft(n, m))
  {
    LastOfInner(CutLeft(n, m), h);
  }

  lemma CutContent(n: Node, m: nat)
    requires n.Inner? && m < |n.keys| == |n.kids| - 1
    ensures var c, s := Of(n), Plus(Of(CutLeft(n, m)), Of(CutRight(n, m)));
            s.items == c.items && s.ids == c.ids && s.inners == c.inners + 1
  {
    assert n.kids == n.kids[..m + 1] + n.kids[m + 1..];
    OfAllAppend(n.kids[..m + 1], n.kids[m + 1..]);
  }

  // ---------------------------------------------------------------------------------------
  // Shrinking
  // ---------------------------------------------------------------------------------------

  predicate Siblings(l: Node, sep: int, r: Node, h: nat) {
    Built(l, h) && Built(r, h) && sep == Last(l)
  }

  /** Two siblings as one node; an inner node takes the separator down. */
  function Join(l: Node, sep: int, r: Node): (n: Node)
    requires l.Leaf? == r.Leaf?
  {
    if l.Leaf? then Leaf(l.id, l.items + r.items) else Inner(l.keys + [sep] + r.keys, l.kids + r.kids)
  }

  lemma JoinBuilt(l: Node, sep: int, r: Node, h: nat)
    requires Siblings(l, sep, r, h)
    ensures l.Leaf? == r.Leaf? && Built(Join(l, sep, r), h) && Last(Join(l, sep, r)) == Last(r)
    ensures Slots(Join(l, sep, r)) == Slots(l) + Slots(r) + if l.Leaf? then 0 else 1
  {
    if l.Inner? {
      var n := Join(l, sep, r);
      LastOfInner(l, h);
      LastOfInner(r, h);
      forall i | 0 <= i < |n.kids| ensures n.kids[i] == if i <= |l.keys| then l.kids[i] else r.kids[i - |l.keys| - 1] {
      }
      forall i | 0 <= i < |n.keys|
        ensures n.keys[i] == if i < |l.keys| then l.keys[i] else if i == |l.keys| then sep else r.keys[i - |l.keys| - 1]
      {
      }
      LastOfInner(n, h);
    }
  }

  lemma JoinContent(l: Node, sep: int, r: Node)
    requires l.Leaf? == r.Leaf?
    ensures var c, s := Of(Join(l, sep, r)), Plus(Of(l), Of(r));
            && c.items == s.items
            && (l.Leaf? ==> c.ids == Of(l).ids && c.inners == s.inners)
            && (l.Inner? ==> c.ids == s.ids && c.inners + 1 == s.inners)
  {
    if l.Inner? {
      OfAllAppend(l.kids, r.kids);
    }
  }

  /** Two siblings redistributed, so that the left one has `m` slots. */
  function SpreadLeft(l: Node, sep: int, r: Node, m: nat): (n: Node)
    requires l.Leaf? == r.Leaf? && m < Slots(l) + Slots(r)
    requires l.Inner? ==> |l.kids| == |l.keys| + 1 && |r.kids| == |r.keys| + 1
  {
    var j := Join(l, sep, r);
    if l.Leaf? then Leaf(l.id, j.items[..m]) else CutLeft(j, m)
  }

  function SpreadRight(l: Node, sep: int, r: Node, m: nat): (n: Node)
    requires l.Leaf? == r.Leaf? && m < Slots(l) + Slots(r)
    requires l.Inner? ==> |l.kids| == |l.keys| + 1 && |r.kids| == |r.keys| + 1
  {
    var j := Join(l, sep, r);
    if l.Leaf? then Leaf(r.id, j.items[m..]) else CutRight(j, m)
  }

  function SpreadKey(l: Node, sep: int, r: Node, m: nat): (k: int)
    requires l.Leaf? == r.Leaf? && 0 < m < Slots(l) + Slots(r)
  {
    var j := Join(l, sep, r);
    if l.Leaf? then j.items[m - 1].key else j.keys[m]
  }

  lemma SpreadBuilt(l: Node, sep: int, r: Node, h: nat, m: nat)
    requires Siblings(l, sep, r, h) && l.Leaf? == r.Leaf? && 0 < m < Slots(l) + Slots(r)
    ensures Siblings(SpreadLeft(l, sep, r, m), SpreadKey(l, sep, r, m), SpreadRight(l, sep, r, m), h)
    ensures Last(SpreadRight(l, sep, r, m)) == Last(r)
    ensures Slots(SpreadLeft(l, sep, r, m)) == m && Slots(SpreadRight(l, sep, r, m)) == Slots(l) + Slots(r) - m
  {
    JoinBuilt(l, sep, r, h);
    var j := Join(l, sep, r);
    if l.Inner? {
      CutShape(j, h, m);
      LastOfInner(j, h);
      LastOfInner(CutRight(j, m), h);
    }
  }

  /** Two nodes of one kind, with a child more than keys in inner ones. */
  predicate Pair(l: Node, r: Node) {
    && l.Leaf? == r.Leaf?
    && (l.Inner? ==> |l.kids| == |l.keys| + 1 && |r.kids| == |r.keys| + 1)
  }

  lemma SpreadContent(l: Node, sep: int, r: Node, m: nat)
    requires Pair(l, r) && 0 < m < Slots(l) + Slots(r)
    ensures Plus(Of(SpreadLeft(l, sep, r, m)), Of(SpreadRight(l, sep, r, m))) == Plus(Of(l), Of(r))
  {
    JoinContent(l, sep, r);
    var j := Join(l, sep, r);
    if l.Inner? {
      CutContent(j, m);
    }
  }

  /** Built, except that the child at `s` may be underfull. */
  predicate BuiltBut(n: Node, h: nat, s: nat) {
    && n.Inner? && h > 0 && |n.kids| == |n.keys| + 1 && s < |n.kids|
    && (forall i :: 0 <= i < |n.kids| ==> Built(n.kids[i], h - 1) && Slots(n.kids[i]) <= MaxSlots(n.kids[i]))
    && (forall i :: 0 <= i < |n.kids| && i != s ==> !IsUnderflow(n.kids[i]))
    && (forall i :: 0 <= i < |n.keys| ==> n.keys[i] == Last(n.kids[i]))
  }

  /** The children `i` and `i + 1` merged. */
  function JoinAt(n: Node, i: nat): (r: Node)
    requires n.Inner? && i < |n.keys| == |n.kids| - 1 && n.kids[i].Leaf? == n.kids[i + 1].Leaf?
  {
    Inner(n.keys[..i] + n.keys[i + 1..], n.kids[..i] + [Join(n.kids[i], n.keys[i], n.kids[i + 1])] + n.kids[i + 2..])
  }

  lemma JoinAtBuilt(n: Node, h: nat, s: nat, i: nat)
    requires BuiltBut(n, h, s) && i < |n.keys| && (s == i || s == i + 1)
    requires n.kids[i].Leaf? == n.kids[i + 1].Leaf? && Fitting(Join(n.kids[i], n.keys[i], n.kids[i + 1]))
    ensures Built(JoinAt(n, i), h) && Slots(JoinAt(n, i)) == Slots(n) - 1
  {
    var r := JoinAt(n, i);
    JoinBuilt(n.kids[i], n.keys[i], n.kids[i + 1], h - 1);
    hide Join, Last;
    forall k | 0 <= k < |r.kids|
      ensures r.kids[k] == if k < i then n.kids[k] else if k == i then Join(n.kids[i], n.keys[i], n.kids[i + 1])
              else n.kids[k + 1]
    {
    }
    forall k | 0 <= k < |r.keys| ensures r.keys[k] == if k < i then n.keys[k] else n.keys[k + 1] {
    }
  }

  lemma TwoReplaced(kids: seq<Node>, i: nat, l: Node, r: Node)
    requires i + 1 < |kids|
    ensures kids[i := l][i + 1 := r] == kids[..i] + [l, r] + kids[i + 2..]
  {
  }

  lemma OfAroundTwo(kids: seq<Node>, i: nat)
    requires i + 1 < |kids|
    ensures OfAll(kids) == Plus(Plus(OfAll(kids[..i]), Plus(Of(kids[i]), Of(kids[i + 1]))), OfAll(kids[i + 2..]))
  {
    hide Of, OfAll;
    OfSplit(kids, i, 2);
    assert kids[i..i + 2] == [kids[i], kids[i + 1]];
    OfTwo(kids[i], kids[i + 1]);
  }

  lemma OfJoinAt(n: Node, i: nat)
    requires n.Inner? && i < |n.keys| == |n.kids| - 1 && n.kids[i].Leaf? == n.kids[i + 1].Leaf?
    ensures OfAll(JoinAt(n, i).kids) ==
            Plus(Plus(OfAll(n.kids[..i]), Of(Join(n.kids[i], n.keys[i], n.kids[i + 1]))), OfAll(n.kids[i + 2..]))
  {
    var j := Join(n.kids[i], n.keys[i], n.kids[i + 1]);
    OfReplaced(n.kids, i, 2, [j]);
    OfOne(j);
  }

  lemma JoinAtContent(n: Node, i: nat)
    requires n.Inner? && i < |n.keys| == |n.kids| - 1 && n.kids[i].Leaf? == n.kids[i + 1].Leaf?
    ensures var c, d := Of(n), Of(JoinAt(n, i));
            var a, b := OfAll(n.kids[..i]).ids, OfAll(n.kids[i + 2..]).ids;
            && d.items == c.items
            && (n.kids[i].Leaf? ==> && c.ids == a + [n.kids[i].id, n.kids[i + 1].id] + b
                                    && d.ids == a + [n.kids[i].id] + b && d.inners == c.inners)
            && (n.kids[i].Inner? ==> d.ids == c.ids && d.inners + 1 == c.inners)
  {
    var l, r, kids' := n.kids[i], n.kids[i + 1], JoinAt(n, i).kids;
    assert Of(n).items == OfAll(n.kids).items && Of(JoinAt(n, i)).items == OfAll(kids').items;
    OfAroundTwo(n.kids, i);
    OfJoinAt(n, i);
    JoinContent(l, n.keys[i], r);
  }

  /** The children `i` and `i + 1` redistributed. */
  function SpreadAt(n: Node, i: nat, m: nat): (r: Node)
    requires n.Inner? && i < |n.keys| == |n.kids| - 1
    requires var l, r := n.kids[i], n.kids[i + 1];
             && l.Leaf? == r.Leaf? && 0 < m < Slots(l) + Slots(r)
             && (l.Inner? ==> |l.kids| == |l.keys| + 1 && |r.kids| == |r.keys| + 1)
  {
    var l, sep, r := n.kids[i], n.keys[i], n.kids[i + 1];
    Inner(n.keys[i := SpreadKey(l, sep, r, m)],
          n.kids[..i] + [SpreadLeft(l, sep, r, m), SpreadRight(l, sep, r, m)] + n.kids[i + 2..])
  }

  lemma SpreadAtBuilt(n: Node, h: nat, s: nat, i: nat, m: nat)
    requires BuiltBut(n, h, s) && i < |n.keys| && (s == i || s == i + 1)
    requires var l, r := n.kids[i], n.kids[i + 1];
             && l.Leaf? == r.Leaf? && 0 < m < Slots(l) + Slots(r)
             && MaxSlots(l) / 2 <= m <= MaxSlots(l) && MaxSlots(l) / 2 <= Slots(l) + Slots(r) - m <= MaxSlots(l)
    ensures Built(SpreadAt(n, i, m), h) && Slots(SpreadAt(n, i, m)) == Slots(n)
    ensures Of(SpreadAt(n, i, m)) == Of(n)
  {
    var l, sep, r := n.kids[i], n.keys[i], n.kids[i + 1];
    var l', r', t := SpreadLeft(l, sep, r, m), SpreadRight(l, sep, r, m), SpreadAt(n, i, m);
    SpreadBuilt(l, sep, r, h - 1, m);
    SpreadAtContent(n, i, m);
    hide SpreadLeft, SpreadRight, SpreadKey, Of;
    PairReplaced(n, h, s, i, l', SpreadKey(l, sep, r, m), r');
  }

  /** Both children around a separator replaced by fitting ones. */
  lemma PairReplaced(n: Node, h: nat, s: nat, i: nat, l: Node, sep: int, r: Node)
    requires BuiltBut(n, h, s) && i < |n.keys| && (s == i || s == i + 1)
    requires Siblings(l, sep, r, h - 1) && Fitting(l) && Fitting(r) && Last(r) == Last(n.kids[i + 1])
    ensures Built(Inner(n.keys[i := sep], n.kids[..i] + [l, r] + n.kids[i + 2..]), h)
  {
    var t := Inner(n.keys[i := sep], n.kids[..i] + [l, r] + n.kids[i + 2..]);
    assert forall k :: 0 <= k < |t.kids| ==>
      t.kids[k] == if k == i then l else if k == i + 1 then r else n.kids[k];
    hide Last;
  }

  lemma SpreadAtContent(n: Node, i: nat, m: nat)
    requires n.Inner? && i < |n.keys| == |n.kids| - 1
    requires Pair(n.kids[i], n.kids[i + 1]) && 0 < m < Slots(n.kids[i]) + Slots(n.kids[i + 1])
    ensures Of(SpreadAt(n, i, m)) == Of(n)
  {
    var l, sep, r := n.kids[i], n.keys[i], n.kids[i + 1];
    var l', r' := SpreadLeft(l, sep, r, m), SpreadRight(l, sep, r, m);
    OfAroundTwo(n.kids, i);
    SpreadContent(l, sep, r, m);
    OfReplaced(n.kids, i, 2, [l', r']);
    OfTwo(l', r');
    assert OfAll(SpreadAt(n, i, m).kids) == OfAll(n.kids);
  }
}
