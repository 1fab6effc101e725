/**
 The tree's own consistency check, with the comparisons the program makes: a recursive walk over the
 nodes that gathers statistics, and a walk along the list of leaves. The comparisons allow equal keys.
 */
module StxVerify {
  import opened StxNodes
  import opened StxSteps
  import opened StxLeafList
  import opened StxTree
  import StxErase

  function MinKey(n: Node): (k: int) {
    match n
    case Leaf(_, items) => if items == [] then 0 else items[0].key
    case Inner(_, kids) => if kids == [] then 0 else MinKey(kids[0])
  }

  function MaxKey(n: Node): (k: int) {
    match n
    case Leaf(_, items) => if items == [] then 0 else items[|items| - 1].key
    case Inner(_, kids) => if kids == [] then 0 else MaxKey(kids[|kids| - 1])
  }

  /** Neighbouring keys of a leaf. */
  predicate LeafCompares(items: seq<Item>) {
    forall i :: 0 <= i < |items| - 1 ==> items[i].key <= items[i + 1].key
  }

  predicate KeysCompare(keys: seq<int>) {
    forall i :: 0 <= i < |keys| - 1 ==> keys[i] <= keys[i + 1]
  }

  /** The separators around a child against the smallest and the largest key below it. */
  predicate KidCompares(keys: seq<int>, kids: seq<Node>, i: nat)
    requires i < |kids| == |keys| + 1
  {
    && (i > 0 ==> keys[i - 1] <= MinKey(kids[i]))
    && (i < |keys| ==> keys[i] == MaxKey(kids[i]))
  }

  function FirstLeaf(n: Node): (id: nat) {
    match n
    case Leaf(id, _) => id
    case Inner(_, kids) => if kids == [] then 0 else FirstLeaf(kids[0])
  }

  function LastLeaf(n: Node): (id: nat) {
    match n
    case Leaf(id, _) => id
    case Inner(_, kids) => if kids == [] then 0 else LastLeaf(kids[|kids| - 1])
  }

  predicate LinkedTo(list: LeafList, a: nat, b: nat) {
    && a in list.links && b in list.links
    && list.links[a].next == To(b) && list.links[b].prev == To(a)
  }

  /** Leaf links are looked at between children of the two lowest inner levels only. */
  predicate KidLinked(list: LeafList, level: nat, kids: seq<Node>, i: nat)
    requires i < |kids|
  {
    i + 1 < |kids| && 0 < level <= 2 ==> LinkedTo(list, LastLeaf(kids[i]), FirstLeaf(kids[i + 1]))
  }

  predicate Filling(n: Node, isRoot: bool) { (isRoot || !IsUnderflow(n)) && 0 < Slots(n) <= MaxSlots(n) }

  /** The walk; the slot arrays bound the slot counts. */
  predicate Walk(n: Node, level: nat, isRoot: bool, list: LeafList) {
    && Filling(n, isRoot)
    && if n.Leaf? then level == 0 && LeafCompares(n.items)
       else && level > 0 && |n.kids| == |n.keys| + 1 && KeysCompare(n.keys)
            && forall i :: 0 <= i < |n.kids| ==>
                 && Walk(n.kids[i], level - 1, false, list)
                 && KidCompares(n.keys, n.kids, i) && KidLinked(list, level, n.kids, i)
  }

  // ---------------------------------------------------------------------------------------
  // What the walk accepts
  // ---------------------------------------------------------------------------------------

  predicate NonDescending(s: seq<Item>) {
    forall i, j :: 0 <= i < j < |s| ==> s[i].key <= s[j].key
  }

  /** Shape, capacity and order, equal keys being allowed. */
  predicate Ordered(n: Node, h: nat) {
    Built(n, h) && Slots(n) <= MaxSlots(n) && NonDescending(Items(n))
  }

  predicate DistinctKeys(s: seq<Item>) {
    forall i, j :: 0 <= i < j < |s| ==> s[i].key != s[j].key
  }

  /** The leaf links that are looked at are in place. */
  predicate LinksLookedAt(n: Node, level: nat, list: LeafList) {
    n.Inner? ==> forall i :: 0 <= i < |n.kids| ==>
                   level > 0 && KidLinked(list, level, n.kids, i) && LinksLookedAt(n.kids[i], level - 1, list)
  }

  lemma {:induction false} MaxIsLast(n: Node, h: nat)
    requires Built(n, h)
    ensures MaxKey(n) == Last(n) && Items(n) != [] && MinKey(n) == Items(n)[0].key
    decreases h
  {
    if n.Inner? {
      MaxIsLast(n.kids[0], h - 1);
      MaxIsLast(n.kids[|n.keys|], h - 1);
      LastOfInner(n, h);
      assert OfAll(n.kids).items == Items(n.kids[0]) + OfAll(n.kids[1..]).items;
      NotEmpty(n, h);
    }
  }

  lemma {:induction false} Stepwise(s: seq<Item>, i: nat, j: nat)
    requires i < j < |s| && LeafCompares(s)
    ensures s[i].key <= s[j].key
  {
    if i + 1 < j {
      Stepwise(s, i, j - 1);
      assert s[j - 1].key <= s[j - 1 + 1].key;
    }
  }

  lemma Together(a: seq<Item>, b: seq<Item>)
    ensures NonDescending(a + b) <==>
            NonDescending(a) && NonDescending(b) && (a != [] && b != [] ==> a[|a| - 1].key <= b[0].key)
  {
    var s := a + b;
    if NonDescending(s) {
      assert forall i :: 0 <= i < |a| ==> a[i] == s[i];
      assert forall j :: 0 <= j < |b| ==> b[j] == s[|a| + j];
    } else if NonDescending(a) && NonDescending(b) && (a != [] && b != [] ==> a[|a| - 1].key <= b[0].key) {
      forall i, j | 0 <= i < j < |s| ensures s[i].key <= s[j].key {
        assert i < |a| <= j ==> a[i].key <= a[|a| - 1].key && b[0].key <= b[j - |a|].key;
      }
    }
  }

  lemma NothingInOrder()
    ensures NonDescending([])
  {
  }

  /** Children that are in order one by one and against their separators are in order together. */
  lemma {:induction false} KidsInOrder(n: Node, h: nat, i: nat)
    requires n.Inner? && Built(n, h) && i <= |n.kids|
    requires forall k :: 0 <= k < |n.kids| ==> NonDescending(Items(n.kids[k])) && KidCompares(n.keys, n.kids, k)
    ensures NonDescending(Before(n, i))
    decreases i
  {
    hide Of, OfAll, MinKey, MaxKey, NonDescending;
    if i > 0 {
      KidsInOrder(n, h, i - 1);
      NextInOrder(n, h, i);
    } else {
      assert n.kids[..0] == [] && OfAll([]) == NOTHING by { OfNothing(); }
      NothingInOrder();
    }
  }

  lemma NextInOrder(n: Node, h: nat, i: nat)
    requires n.Inner? && Built(n, h) && 0 < i <= |n.kids|
    requires NonDescending(Before(n, i - 1)) && NonDescending(Items(n.kids[i - 1]))
             && KidCompares(n.keys, n.kids, i - 1)
    ensures NonDescending(Before(n, i))
  {
    hide Of, OfAll, MinKey, MaxKey, NonDescending;
    var k := n.kids[i - 1];
    assert Before(n, i) == Before(n, i - 1) + Items(k) by {
      assert n.kids[..i] == n.kids[..i - 1] + [k];
      OfAllAppend(n.kids[..i - 1], [k]);
      OfOne(k);
    }
    MaxIsLast(k, h - 1);
    if i > 1 {
      NotEmpty(n.kids[i - 2], h - 1);
      MaxIsLast(n.kids[i - 2], h - 1);
      LastBefore(n, i - 1);
    } else {
      assert n.kids[..0] == [];
      OfNothing();
    }
    Together(Before(n, i - 1), Items(k));
  }

  lemma LeafIsOrdered(n: Node)
    requires n.Leaf? && 0 < |n.items| <= LEAF_SLOTS && LeafCompares(n.items)
    ensures Ordered(n, 0)
  {
    forall i, j | 0 <= i < j < |n.items| ensures n.items[i].key <= n.items[j].key {
      Stepwise(n.items, i, j);
    }
  }

  lemma InnerIsOrdered(n: Node, h: nat)
    requires n.Inner? && h > 0 && |n.keys| <= INNER_SLOTS && |n.kids| == |n.keys| + 1
    requires forall i :: 0 <= i < |n.kids| ==>
               Ordered(n.kids[i], h - 1) && Fitting(n.kids[i]) && KidCompares(n.keys, n.kids, i)
    ensures Ordered(n, h)
  {
    hide OfAll, MinKey, NonDescending;
    forall i | 0 <= i < |n.kids| ensures MaxKey(n.kids[i]) == Last(n.kids[i]) {
      MaxIsLast(n.kids[i], h - 1);
    }
    assert Built(n, h);
    KidsInOrder(n, h, |n.kids|);
    assert n.kids[..|n.kids|] == n.kids;
  }

  lemma {:induction false} WalkIsOrdered(n: Node, h: nat, isRoot: bool, list: LeafList)
    requires Walk(n, h, isRoot, list)
    ensures Ordered(n, h) && LinksLookedAt(n, h, list)
    decreases h
  {
    hide Ordered, KidCompares, KidLinked, LeafCompares, KeysCompare;
    if n.Leaf? {
      LeafIsOrdered(n);
    } else {
      forall i | 0 <= i < |n.kids|
        ensures Ordered(n.kids[i], h - 1) && Fitting(n.kids[i]) && LinksLookedAt(n.kids[i], h - 1, list)
      {
        assert Walk(n.kids[i], h - 1, false, list);
        WalkIsOrdered(n.kids[i], h - 1, false, list);
      }
      InnerIsOrdered(n, h);
    }
  }

  lemma {:induction false} OrderedIsWalk(n: Node, h: nat, isRoot: bool, list: LeafList)
    requires Ordered(n, h) && Filling(n, isRoot) && LinksLookedAt(n, h, list)
    ensures Walk(n, h, isRoot, list)
    decreases h
  {
    hide OfAll, MinKey, MaxKey, KidCompares, KidLinked, NonDescending;
    if n.Inner? {
      forall i | 0 <= i < |n.kids|
        ensures Walk(n.kids[i], h - 1, false, list) && KidCompares(n.keys, n.kids, i)
      {
        KidInOrder(n, h, i);
        OrderedIsWalk(n.kids[i], h - 1, false, list);
      }
      KeysInOrder(n, h);
    } else {
      assert LeafCompares(n.items) by { LeafInOrder(n.items); }
    }
  }

  lemma LeafInOrder(items: seq<Item>)
    requires NonDescending(items)
    ensures LeafCompares(items)
  {
  }

  lemma KeysInOrder(n: Node, h: nat)
    requires Ordered(n, h) && n.Inner?
    ensures KeysCompare(n.keys)
  {
    hide OfAll, MinKey, MaxKey, NonDescending;
    forall i | 0 <= i < |n.keys| - 1 ensures n.keys[i] <= n.keys[i + 1] {
      KidInOrder(n, h, i);
      KidInOrder(n, h, i + 1);
    }
  }

  lemma KidInOrder(n: Node, h: nat, i: nat)
    requires Ordered(n, h) && n.Inner? && i < |n.kids|
    ensures Ordered(n.kids[i], h - 1) && KidCompares(n.keys, n.kids, i) && MinKey(n.kids[i]) <= MaxKey(n.kids[i])
  {
    hide MinKey, MaxKey, NonDescending, Of, OfAll;
    AroundChild(n, i);
    var a, e := Before(n, i), Items(n.kids[i]);
    Together(a + e, After(n, i));
    Together(a, e);
    MaxIsLast(n.kids[i], h - 1);
    FirstAndLast(e);
    if i > 0 {
      NotEmpty(n.kids[i - 1], h - 1);
      LastBefore(n, i);
    }
  }

  lemma FirstAndLast(s: seq<Item>)
    requires NonDescending(s) && s != []
    ensures s[0].key <= s[|s| - 1].key
  {
  }

  /**
   The walk accepts a root exactly if shape, fill and separators are exact, its items do not descend, and the
   links it looks at are in place.
   */
  lemma WalkIff(n: Node, h: nat, list: LeafList)
    ensures Walk(n, h, true, list) <==> Ordered(n, h) && Slots(n) >= 1 && LinksLookedAt(n, h, list)
  {
    if Walk(n, h, true, list) {
      WalkIsOrdered(n, h, true, list);
    } else if Ordered(n, h) && Slots(n) >= 1 && LinksLookedAt(n, h, list) {
      OrderedIsWalk(n, h, true, list);
    }
  }

  /** Where no two keys are equal, this is the invariant the operations keep. */
  lemma OrderedIsSound(n: Node, h: nat)
    ensures Sound(n, h) <==> Ordered(n, h) && DistinctKeys(Items(n))
  {
  }

  /** The walk does not notice equal keys. */
  lemma WalkAcceptsEqualKeys(list: LeafList)
    ensures var n := Leaf(0, [Item(5, 0), Item(5, 1)]); Walk(n, 0, true, list) && !Sound(n, 0)
  {
    var n := Leaf(0, [Item(5, 0), Item(5, 1)]);
    assert Items(n)[0].key == Items(n)[1].key;
  }

  // ---------------------------------------------------------------------------------------
  // The walk as it runs
  // ---------------------------------------------------------------------------------------

  datatype Stats = Stats(items: nat, leaves: nat, inners: nat)

  function Counted(stats: Stats, c: Content): (r: Stats) {
    Stats(stats.items + |c.items|, stats.leaves + |c.ids|, stats.inners + c.inners)
  }

  lemma CountedMore(stats: Stats, kids: seq<Node>, i: nat)
    requires i < |kids|
    ensures Counted(Counted(stats, OfAll(kids[..i])), Of(kids[i])) == Counted(stats, OfAll(kids[..i + 1]))
  {
    assert kids[..i + 1] == kids[..i] + [kids[i]];
    OfAllAppend(kids[..i], [kids[i]]);
    OfOne(kids[i]);
  }

  method VerifyNode(n: Node, level: nat, isRoot: bool, list: LeafList, stats: Stats)
    returns (ok: bool, min: int, max: int, stats': Stats)
    decreases n, 1
    ensures ok <==> Walk(n, level, isRoot, list)
    ensures ok ==> min == MinKey(n) && max == MaxKey(n) && stats' == Counted(stats, Of(n))
  {
    ok, min, max, stats' := false, 0, 0, stats;
    if !Filling(n, isRoot) {
      return;
    }
    if n.Inner? {
      ok, min, max, stats' := VerifyInner(n, level, isRoot, list, stats);
      return;
    }
    ok := VerifySlots(n.items);
    ok := ok && level == 0;
    min, max := n.items[0].key, n.items[|n.items| - 1].key;
    stats' := Stats(stats.items + |n.items|, stats.leaves + 1, stats.inners);
  }

  method VerifyInner(n: Node, level: nat, isRoot: bool, list: LeafList, stats: Stats)
    returns (ok: bool, min: int, max: int, stats': Stats)
    requires n.Inner? && Filling(n, isRoot)
    decreases n, 0
    ensures ok <==> Walk(n, level, isRoot, list)
    ensures ok ==> min == MinKey(n) && max == MaxKey(n) && stats' == Counted(stats, Of(n))
  {
    hide Of, OfAll, MinKey, MaxKey, Counted, Walk, KidLinked, KidCompares;
    InnerWalks(n, level, isRoot, list);
    ok, min, max, stats' := false, 0, 0, stats.(inners := stats.inners + 1);
    if level == 0 || |n.kids| != |n.keys| + 1 {
      return;
    }
    for slot := 0 to |n.keys| - 1
      invariant forall i :: 0 <= i < slot ==> n.keys[i] <= n.keys[i + 1]
    {
      if n.keys[slot] > n.keys[slot + 1] {
        return;
      }
    }
    NothingCounted(stats', n.kids);
    ghost var from := stats';
    for slot := 0 to |n.kids|
      invariant stats' == Counted(from, OfAll(n.kids[..slot]))
      invariant forall i :: 0 <= i < slot ==> KidAccepted(n, level, list, i)
      invariant (slot > 0 ==> min == MinKey(n.kids[0])) && (slot == |n.kids| ==> max == MaxKey(n.kids[|n.keys|]))
    {
      var sub, subMin, subMax;
      CountedMore(from, n.kids, slot);
      sub, subMin, subMax, stats' := VerifyNode(n.kids[slot], level - 1, false, list, stats');
      KidAccepts(n, level, list, slot);
      if !sub || (slot > 0 && subMin < n.keys[slot - 1]) || (slot < |n.keys| && n.keys[slot] != subMax) {
        return;
      }
      if slot < |n.keys| && level <= 2 && !LinkedTo(list, LastLeaf(n.kids[slot]), FirstLeaf(n.kids[slot + 1])) {
        return;
      }
      min := if slot == 0 then subMin else min;
      max := if slot == |n.keys| then subMax else max;
    }
    AllCounted(stats, n);
    ok := true;
  }

  /** What one round over the children looks at. */
  predicate KidAccepted(n: Node, level: nat, list: LeafList, i: nat)
    requires n.Inner? && level > 0 && i < |n.kids| == |n.keys| + 1
  {
    Walk(n.kids[i], level - 1, false, list) && KidCompares(n.keys, n.kids, i) && KidLinked(list, level, n.kids, i)
  }

  lemma KidAccepts(n: Node, level: nat, list: LeafList, i: nat)
    requires n.Inner? && level > 0 && i < |n.kids| == |n.keys| + 1
    ensures KidAccepted(n, level, list, i) <==>
            && Walk(n.kids[i], level - 1, false, list)
            && (i > 0 ==> n.keys[i - 1] <= MinKey(n.kids[i])) && (i < |n.keys| ==> n.keys[i] == MaxKey(n.kids[i]))
            && (i < |n.keys| && level <= 2 ==> LinkedTo(list, LastLeaf(n.kids[i]), FirstLeaf(n.kids[i + 1])))
  {
    hide Walk, MinKey, MaxKey, LastLeaf, FirstLeaf;
  }

  lemma InnerWalks(n: Node, level: nat, isRoot: bool, list: LeafList)
    requires n.Inner? && Filling(n, isRoot)
    ensures Walk(n, level, isRoot, list) <==>
            && level > 0 && |n.kids| == |n.keys| + 1 && KeysCompare(n.keys)
            && forall i :: 0 <= i < |n.kids| ==> KidAccepted(n, level, list, i)
  {
    hide KidCompares, KidLinked;
    if level > 0 && |n.kids| == |n.keys| + 1 {
      forall i | 0 <= i < |n.kids|
        ensures KidAccepted(n, level, list, i) <==>
                && Walk(n.kids[i], level - 1, false, list)
                && KidCompares(n.keys, n.kids, i) && KidLinked(list, level, n.kids, i)
      {
      }
    }
  }

  lemma NothingCounted(stats: Stats, kids: seq<Node>)
    ensures Counted(stats, OfAll(kids[..0])) == stats
  {
  }

  lemma AllCounted(stats: Stats, n: Node)
    requires n.Inner? && n.kids != []
    ensures Counted(stats.(inners := stats.inners + 1), OfAll(n.kids[..|n.kids|])) == Counted(stats, Of(n))
    ensures MinKey(n) == MinKey(n.kids[0]) && MaxKey(n) == MaxKey(n.kids[|n.kids| - 1])
  {
    assert n.kids[..|n.kids|] == n.kids;
  }

  // ---------------------------------------------------------------------------------------
  // Along the leaves
  // ---------------------------------------------------------------------------------------

  /** The leaves of a subtree in order. */
  function Leaves(n: Node): (r: seq<Node>) {
    match n
    case Leaf(_, _) => [n]
    case Inner(_, kids) => LeavesOfAll(kids)
  }

  function LeavesOfAll(kids: seq<Node>): (r: seq<Node>) {
    if kids == [] then [] else Leaves(kids[0]) + LeavesOfAll(kids[1..])
  }

  lemma {:induction false} LeavesAre(n: Node, h: nat)
    requires Built(n, h)
    ensures AllLeaves(Leaves(n)) && OfAll(Leaves(n)).items == Items(n) && OfAll(Leaves(n)).ids == Of(n).ids
    decreases h, 0, 0
  {
    if n.Leaf? {
      OfOne(n);
    } else {
      LeavesOfAllAre(n.kids, h - 1);
    }
  }

  lemma {:induction false} LeavesOfAllAre(kids: seq<Node>, h: nat)
    requires forall i :: 0 <= i < |kids| ==> Built(kids[i], h)
    ensures var r := LeavesOfAll(kids);
            AllLeaves(r) && OfAll(r).items == OfAll(kids).items && OfAll(r).ids == OfAll(kids).ids
    decreases h, 1, |kids|
  {
    if kids != [] {
      LeavesAre(kids[0], h);
      LeavesOfAllAre(kids[1..], h);
      OfAllAppend(Leaves(kids[0]), LeavesOfAll(kids[1..]));
    }
  }

  predicate AllLeaves(leaves: seq<Node>) {
    forall i :: 0 <= i < |leaves| ==> leaves[i].Leaf? && leaves[i].items != []
  }

  lemma {:induction false} IdsAre(leaves: seq<Node>)
    requires AllLeaves(leaves)
    ensures |OfAll(leaves).ids| == |leaves|
    ensures forall i :: 0 <= i < |leaves| ==> OfAll(leaves).ids[i] == leaves[i].id
  {
    if leaves != [] {
      IdsAre(leaves[1..]);
      assert OfAll(leaves).ids == [leaves[0].id] + OfAll(leaves[1..]).ids;
    }
  }

  /** The items of a leaf, and of the leaf after it, as part of all items. */
  lemma LeafPart(leaves: seq<Node>, i: nat)
    requires AllLeaves(leaves) && i < |leaves| && NonDescending(OfAll(leaves).items)
    ensures LeafCompares(leaves[i].items)
    ensures i + 1 < |leaves| ==> leaves[i].items[|leaves[i].items| - 1].key <= leaves[i + 1].items[0].key
  {
    hide NonDescending, OfAll;
    OfSplit(leaves, i, 1);
    assert leaves[i..i + 1] == [leaves[i]];
    OfOne(leaves[i]);
    Together(OfAll(leaves[..i]).items + leaves[i].items, OfAll(leaves[i + 1..]).items);
    Together(OfAll(leaves[..i]).items, leaves[i].items);
    LeafInOrder(leaves[i].items);
    if i + 1 < |leaves| {
      FirstItem(leaves[i + 1..]);
      LastOfAppend(OfAll(leaves[..i]).items, leaves[i].items);
    }
  }

  lemma FirstItem(leaves: seq<Node>)
    requires AllLeaves(leaves) && leaves != []
    ensures OfAll(leaves).items != [] && OfAll(leaves).items[0] == leaves[0].items[0]
  {
  }

  /** The leaves by the identities that the list knows them by. */
  function Table(leaves: seq<Node>): (r: map<nat, seq<Item>>)
    requires AllLeaves(leaves) && forall i, j :: 0 <= i < j < |leaves| ==> leaves[i].id != leaves[j].id
  {
    map i | 0 <= i < |leaves| :: leaves[i].id := leaves[i].items
  }

  predicate LeavesOf(list: LeafList, table: map<nat, seq<Item>>, leaves: seq<Node>) {
    && AllLeaves(leaves) && leaves != [] && Chained(list, OfAll(leaves).ids) && NonDescending(OfAll(leaves).items)
    && (forall i, j :: 0 <= i < j < |leaves| ==> leaves[i].id != leaves[j].id) && table == Table(leaves)
  }

  /** What following the list finds at the leaf `i`. */
  lemma LeafFound(list: LeafList, table: map<nat, seq<Item>>, leaves: seq<Node>, i: nat)
    requires LeavesOf(list, table, leaves) && i < |leaves|
    ensures var id := leaves[i].id;
            && id in table && id in list.links
            && table[id] == leaves[i].items != [] && LeafCompares(table[id])
            && list.links[id].prev == (if i == 0 then Null else To(leaves[i - 1].id))
            && list.links[id].next == (if i + 1 == |leaves| then Null else To(leaves[i + 1].id))
            && (i + 1 == |leaves| ==> list.tail == To(id))
            && (i + 1 < |leaves| ==> table[id][|table[id]| - 1].key <= leaves[i + 1].items[0].key)
  {
    hide NonDescending, OfAll;
    IdsAre(leaves);
    assert LinkedAt(list, OfAll(leaves).ids, i);
    LeafPart(leaves, i);
  }

  // ---------------------------------------------------------------------------------------
  // Following the links of any list
  // ---------------------------------------------------------------------------------------

  /** Following `next` from the head stays among the leaves. */
  predicate Closed(list: LeafList, table: map<nat, seq<Item>>) {
    && (list.head.To? ==> list.head.id in table)
    && forall id :: id in table ==> id in list.links && (list.links[id].next.To? ==> list.links[id].next.id in table)
  }

  /** The leaf holds ascending keys. */
  predicate LeafFits(table: map<nat, seq<Item>>, id: nat) {
    id in table && table[id] != [] && LeafCompares(table[id])
  }

  /** The keys of the second leaf, if it has any, are not below those of the first. */
  predicate InTurn(table: map<nat, seq<Item>>, id: nat, next: nat) {
    id in table && next in table && table[id] != [] && table[next] != [] ==>
      table[id][|table[id]| - 1].key <= table[next][0].key
  }

  predicate FitsAt(table: map<nat, seq<Item>>, ids: seq<nat>, i: nat)
    requires i < |ids|
  {
    LeafFits(table, ids[i]) && (i + 1 < |ids| ==> InTurn(table, ids[i], ids[i + 1]))
  }

  predicate LeavesFit(table: map<nat, seq<Item>>, ids: seq<nat>) {
    forall i :: 0 <= i < |ids| ==> FitsAt(table, ids, i)
  }

  function ItemCount(table: map<nat, seq<Item>>, ids: seq<nat>): (n: nat) {
    if ids == [] then 0
    else
      var id := ids[|ids| - 1];
      ItemCount(table, ids[..|ids| - 1]) + if id in table then |table[id]| else 0
  }

  /** The list links `ids` both ways; they hold non-descending keys, `size` of them. */
  ghost predicate Accepts(list: LeafList, table: map<nat, seq<Item>>, size: nat, ids: seq<nat>) {
    ids != [] && Chained(list, ids) && LeavesFit(table, ids) && ItemCount(table, ids) == size
  }

  /** The leaf at position `i` of a walk that has come to `n`. */
  predicate PassedAt(list: LeafList, ids: seq<nat>, n: Ptr, i: nat)
    requires i < |ids|
  {
    && ids[i] in list.links
    && list.links[ids[i]] == Link(PrevOf(ids, i), if i + 1 < |ids| then To(ids[i + 1]) else n)
  }

  /** The leaves `ids` have been passed, and the walk has come to `n`. */
  ghost predicate Walked(list: LeafList, ids: seq<nat>, n: Ptr) {
    && list.head == (if ids == [] then n else To(ids[0])) && Distinct(ids)
    && (forall i :: 0 <= i < |ids| ==> PassedAt(list, ids, n, i))
    && (n.To? && n.id in list.links ==> list.links[n.id].prev == if ids == [] then Null else To(ids[|ids| - 1]))
  }

  /** The links looked back at keep the walk from coming to a leaf twice. */
  lemma NotAgain(list: LeafList, ids: seq<nat>, n: Ptr)
    requires Walked(list, ids, n) && n.To? && n.id in list.links
    ensures n.id !in ids
  {
    forall j | 0 <= j < |ids| ensures ids[j] != n.id {
      assert PassedAt(list, ids, n, j);
    }
  }

  /** A chained list has no other way to go. */
  lemma {:induction false} OneWay(list: LeafList, ids: seq<nat>, n: Ptr, all: seq<nat>)
    requires Walked(list, ids, n) && Chained(list, all) && all != []
    ensures ids <= all && n == if |ids| < |all| then To(all[|ids|]) else Null
  {
    if ids != [] {
      var last := |ids| - 1;
      ShorterWalk(list, ids, n);
      OneWay(list, ids[..last], To(ids[last]), all);
      assert LinkedAt(list, all, last) && PassedAt(list, ids, n, last);
      hide Walked, Chained;
    }
  }

  lemma ShorterWalk(list: LeafList, ids: seq<nat>, n: Ptr)
    requires Walked(list, ids, n) && ids != []
    ensures Walked(list, ids[..|ids| - 1], To(ids[|ids| - 1]))
  {
    var last := |ids| - 1;
    forall i | 0 <= i < last ensures PassedAt(list, ids[..last], To(ids[last]), i) {
      assert PassedAt(list, ids, n, i);
    }
    assert PassedAt(list, ids, n, last);
  }

  lemma LongerWalk(list: LeafList, ids: seq<nat>, id: nat, n: Ptr)
    requires Walked(list, ids, To(id)) && id in list.links && list.links[id].next == n
    requires n.To? && n.id in list.links ==> list.links[n.id].prev == To(id)
    ensures Walked(list, ids + [id], n)
  {
    NotAgain(list, ids, To(id));
    var ids' := ids + [id];
    forall i | 0 <= i < |ids'| ensures PassedAt(list, ids', n, i) {
      assert i < |ids| ==> PassedAt(list, ids, To(id), i);
    }
  }

  lemma WalkedChained(list: LeafList, ids: seq<nat>)
    requires Walked(list, ids, Null) && ids != [] && list.tail == To(ids[|ids| - 1])
    ensures Chained(list, ids)
  {
    forall i | 0 <= i < |ids| ensures LinkedAt(list, ids, i) {
      assert PassedAt(list, ids, Null, i);
    }
  }

  /** The looks at one leaf and at its successor. */
  predicate LeafPasses(list: LeafList, table: map<nat, seq<Item>>, id: nat) {
    && LeafFits(table, id) && id in list.links
    && var next := list.links[id].next;
       if next.To? then
         InTurn(table, id, next.id) && next.id in list.links && list.links[next.id].prev == To(id)
       else list.tail == To(id)
  }

  method VerifyLeaf(list: LeafList, table: map<nat, seq<Item>>, id: nat) returns (ok: bool)
    requires Closed(list, table) && id in table
    ensures ok <==> LeafPasses(list, table, id)
  {
    var items := table[id];
    ok := VerifySlots(items);
    var next := list.links[id].next;
    if next.To? {
      var after := table[next.id];
      ok := ok && (after == [] || items[|items| - 1].key <= after[0].key) && list.links[next.id].prev == To(id);
    } else {
      ok := ok && list.tail == To(id);
    }
  }

  /** A leaf of an accepted list passes all looks. */
  lemma AcceptedPasses(list: LeafList, table: map<nat, seq<Item>>, size: nat, all: seq<nat>, i: nat)
    requires Accepts(list, table, size, all) && i < |all|
    ensures LeafPasses(list, table, all[i])
  {
    assert LinkedAt(list, all, i) && FitsAt(table, all, i);
    if i + 1 < |all| {
      assert LinkedAt(list, all, i + 1) && FitsAt(table, all, i + 1);
    }
  }

  /** The walk fails at a leaf: there is nothing to accept. */
  lemma Rejected(list: LeafList, table: map<nat, seq<Item>>, size: nat, ids: seq<nat>, id: nat)
    requires Walked(list, ids, To(id)) && !LeafPasses(list, table, id)
    ensures !exists all :: Accepts(list, table, size, all)
  {
    hide LeafPasses, Walked;
    forall all ensures !Accepts(list, table, size, all) {
      if Accepts(list, table, size, all) {
        OneWay(list, ids, To(id), all);
        AcceptedPasses(list, table, size, all, |ids|);
        assert false;
      }
    }
  }

  lemma FitsMore(table: map<nat, seq<Item>>, ids: seq<nat>, id: nat)
    requires LeavesFit(table, ids) && LeafFits(table, id) && (ids != [] ==> InTurn(table, ids[|ids| - 1], id))
    ensures LeavesFit(table, ids + [id]) && ItemCount(table, ids + [id]) == ItemCount(table, ids) + |table[id]|
  {
    assert id in table;
    hide LeafFits, InTurn;
    var ids' := ids + [id];
    assert ids'[..|ids|] == ids;
    forall i | 0 <= i < |ids'| ensures FitsAt(table, ids', i) {
      assert i < |ids| ==> FitsAt(table, ids, i);
    }
  }

  /** At the end of the walk everything but the count is known to be right. */
  lemma EndOfWalk(list: LeafList, table: map<nat, seq<Item>>, size: nat, ids: seq<nat>)
    requires Walked(list, ids, Null) && ids != [] && list.tail == To(ids[|ids| - 1]) && LeavesFit(table, ids)
    ensures (exists all :: Accepts(list, table, size, all)) <==> ItemCount(table, ids) == size
  {
    WalkedChained(list, ids);
    hide LeavesFit, Walked;
    if ItemCount(table, ids) == size {
      assert Accepts(list, table, size, ids);
    }
    forall all | Accepts(list, table, size, all) ensures all == ids {
      OneWay(list, ids, Null, all);
    }
  }

  /** Follows any list from its head, and accepts exactly the lists that link leaves in order both ways. */
  method VerifyLeafLinks(list: LeafList, table: map<nat, seq<Item>>, size: nat) returns (ok: bool)
    requires Closed(list, table)
    ensures ok <==> exists ids :: Accepts(list, table, size, ids)
  {
    var n, count := list.head, 0;
    ghost var ids: seq<nat>, ahead := [], table.Keys;
    if n.Null? || list.links[n.id].prev != Null {
      NoStart(list, table, size);
      return false;
    }
    StartWalk(list, table);
    hide Walked, LeavesFit, InTurn, LeafFits, LeafCompares, ItemCount, Accepts;
    while n.To?
      invariant Walked(list, ids, n) && (n.To? ==> n.id in ahead) && ahead <= table.Keys
      invariant forall id :: id in table && id !in ids ==> id in ahead
      invariant LeavesFit(table, ids) && count == ItemCount(table, ids)
      invariant ids != [] ==> if n.To? then InTurn(table, ids[|ids| - 1], n.id) else list.tail == To(ids[|ids| - 1])
      invariant ids == [] ==> n.To?
      decreases |ahead|
    {
      var id := n.id;
      ok := VerifyLeaf(list, table, id);
      if !ok {
        Rejected(list, table, size, ids, id);
        return;
      }
      NotAgain(list, ids, n);
      FitsMore(table, ids, id);
      LongerWalk(list, ids, id, list.links[id].next);
      count := count + |table[id]|;
      ids, ahead := ids + [id], ahead - {id};
      n := list.links[id].next;
      if n.To? {
        NotAgain(list, ids, n);
      }
    }
    EndOfWalk(list, table, size, ids);
    ok := count == size;
  }

  lemma NoStart(list: LeafList, table: map<nat, seq<Item>>, size: nat)
    requires list.head.To? ==> list.head.id in list.links && list.links[list.head.id].prev != Null
    ensures !exists ids :: Accepts(list, table, size, ids)
  {
    hide Chained;
    forall ids ensures !Accepts(list, table, size, ids) {
      if ids != [] && Chained(list, ids) {
        StartOf(list, ids);
      }
    }
  }

  lemma StartOf(list: LeafList, ids: seq<nat>)
    requires ids != [] && Chained(list, ids)
    ensures list.head == To(ids[0]) && ids[0] in list.links && list.links[ids[0]].prev == Null
  {
    assert LinkedAt(list, ids, 0);
  }

  lemma StartWalk(list: LeafList, table: map<nat, seq<Item>>)
    requires list.head.To? && list.head.id in list.links && list.links[list.head.id].prev == Null
    ensures Walked(list, [], list.head) && LeavesFit(table, []) && ItemCount(table, []) == 0
  {
  }

  /** The leaves of a tree are accepted if they are as many items as the tree says. */
  lemma TreeAccepted(list: LeafList, table: map<nat, seq<Item>>, leaves: seq<Node>)
    requires LeavesOf(list, table, leaves)
    ensures Closed(list, table) && Accepts(list, table, |OfAll(leaves).items|, OfAll(leaves).ids)
  {
    hide NonDescending, OfAll, LeavesFit, Closed, Chained;
    IdsAre(leaves);
    TreeFits(list, table, leaves);
    TreeClosed(list, table, leaves);
    ItemCountAll(table, leaves, |leaves|);
    var ids := OfAll(leaves).ids;
    assert ids[..|leaves|] == ids && leaves[..|leaves|] == leaves;
  }

  lemma TreeFits(list: LeafList, table: map<nat, seq<Item>>, leaves: seq<Node>)
    requires LeavesOf(list, table, leaves)
    ensures LeavesFit(table, OfAll(leaves).ids)
  {
    hide NonDescending, OfAll, LeavesOf;
    IdsOfLeaves(list, table, leaves);
    var ids := OfAll(leaves).ids;
    forall i | 0 <= i < |ids| ensures FitsAt(table, ids, i) {
      LeafFound(list, table, leaves, i);
      if i + 1 < |ids| {
        LeafFound(list, table, leaves, i + 1);
      }
    }
  }

  lemma IdsOfLeaves(list: LeafList, table: map<nat, seq<Item>>, leaves: seq<Node>)
    requires LeavesOf(list, table, leaves)
    ensures |OfAll(leaves).ids| == |leaves|
    ensures forall i :: 0 <= i < |leaves| ==> leaves[i].Leaf? && OfAll(leaves).ids[i] == leaves[i].id
  {
    IdsAre(leaves);
  }

  lemma TreeClosed(list: LeafList, table: map<nat, seq<Item>>, leaves: seq<Node>)
    requires LeavesOf(list, table, leaves)
    ensures Closed(list, table)
  {
    IdsAre(leaves);
    hide OfAll, NonDescending;
    forall id | id in table ensures id in list.links && (list.links[id].next.To? ==> list.links[id].next.id in table) {
      var i :| 0 <= i < |leaves| && leaves[i].id == id;
      LeafFound(list, table, leaves, i);
      if i + 1 < |leaves| {
        LeafFound(list, table, leaves, i + 1);
      }
    }
    LeafFound(list, table, leaves, 0);
  }

  lemma {:induction false} ItemCountAll(table: map<nat, seq<Item>>, leaves: seq<Node>, n: nat)
    requires n <= |leaves| && |OfAll(leaves).ids| == |leaves|
    requires forall i :: 0 <= i < |leaves| ==>
               leaves[i].Leaf? && OfAll(leaves).ids[i] == leaves[i].id && leaves[i].id in table
    requires forall i :: 0 <= i < |leaves| ==> table[leaves[i].id] == leaves[i].items
    ensures ItemCount(table, OfAll(leaves).ids[..n]) == |OfAll(leaves[..n]).items|
  {
    hide Of;
    if n > 0 {
      ItemCountAll(table, leaves, n - 1);
      OneMoreLeaf(leaves, n - 1);
      assert OfAll(leaves).ids[..n][..n - 1] == OfAll(leaves).ids[..n - 1];
      assert OfAll(leaves).ids[..n][n - 1] == leaves[n - 1].id;
    }
  }

  lemma OneMoreLeaf(leaves: seq<Node>, i: nat)
    requires i < |leaves| && leaves[i].Leaf?
    ensures |OfAll(leaves[..i + 1]).items| == |OfAll(leaves[..i]).items| + |leaves[i].items|
  {
    CountedMore(Stats(0, 0, 0), leaves, i);
  }

  method VerifySlots(items: seq<Item>) returns (ok: bool)
    ensures ok <==> items != [] && LeafCompares(items)
  {
    ok := items != [];
    if ok {
      for slot := 0 to |items| - 1
        invariant ok <==> forall i :: 0 <= i < slot ==> items[i].key <= items[i + 1].key
      {
        ok := ok && items[slot].key <= items[slot + 1].key;
      }
    }
  }

  // ---------------------------------------------------------------------------------------
  // The whole check
  // ---------------------------------------------------------------------------------------

  lemma {:induction false} EndsOfIds(n: Node, h: nat)
    requires Built(n, h)
    ensures var ids := Of(n).ids; ids != [] && ids[0] == FirstLeaf(n) && ids[|ids| - 1] == LastLeaf(n)
    decreases h
  {
    if n.Inner? {
      var l := |n.kids| - 1;
      EndsOfIds(n.kids[0], h - 1);
      EndsOfIds(n.kids[l], h - 1);
      FirstAndLastKid(n);
    }
  }

  lemma FirstAndLastKid(n: Node)
    requires n.Inner? && n.kids != []
    ensures Of(n.kids[0]).ids <= Of(n).ids
    ensures var l := |n.kids| - 1; Of(n).ids == IdsBefore(n, l) + Of(n.kids[l]).ids
  {
    var l := |n.kids| - 1;
    assert Of(n).ids == Of(n.kids[0]).ids + OfAll(n.kids[1..]).ids;
    IdsAroundChild(n, l);
    assert n.kids[l + 1..] == [];
    OfNothing();
  }

  /** Leaves chained in order pass all looks at their links. */
  lemma {:induction false} ChainedPasses(n: Node, h: nat, list: LeafList, pre: seq<nat>, post: seq<nat>)
    requires Built(n, h) && Chained(list, pre + Of(n).ids + post)
    ensures LinksLookedAt(n, h, list)
    decreases h
  {
    hide Of, OfAll, Chained, KidLinked;
    if n.Inner? {
      forall i | 0 <= i < |n.kids| ensures KidLinked(list, h, n.kids, i) && LinksLookedAt(n.kids[i], h - 1, list) {
        IdsAroundChild(n, i);
        Regroup(pre, IdsBefore(n, i), Of(n.kids[i]).ids, IdsAfter(n, i), post);
        ChainedPasses(n.kids[i], h - 1, list, pre + IdsBefore(n, i), IdsAfter(n, i) + post);
        if i + 1 < |n.kids| {
          NextKidLinked(n, h, list, pre, post, i);
        }
        LastKidLinked(list, h, n.kids, i);
      }
    }
  }

  lemma LastKidLinked(list: LeafList, level: nat, kids: seq<Node>, i: nat)
    requires i < |kids| && (i + 1 < |kids| ==> LinkedTo(list, LastLeaf(kids[i]), FirstLeaf(kids[i + 1])))
    ensures KidLinked(list, level, kids, i)
  {
  }

  lemma NextKidLinked(n: Node, h: nat, list: LeafList, pre: seq<nat>, post: seq<nat>, i: nat)
    requires Built(n, h) && n.Inner? && i + 1 < |n.kids| && Chained(list, pre + Of(n).ids + post)
    ensures LinkedTo(list, LastLeaf(n.kids[i]), FirstLeaf(n.kids[i + 1]))
  {
    hide Of, OfAll, FirstLeaf, LastLeaf;
    EndsOfIds(n.kids[i], h - 1);
    EndsOfIds(n.kids[i + 1], h - 1);
    var a, b := Of(n.kids[i]).ids, Of(n.kids[i + 1]).ids;
    var x, y := pre + OfAll(n.kids[..i]).ids, OfAll(n.kids[i + 2..]).ids + post;
    var ids := pre + Of(n).ids + post;
    assert ids == x + a + b + y by { TwoKidIds(n, i); }
    Neighbours(list, ids, |x| + |a| - 1);
  }

  lemma TwoKidIds(n: Node, i: nat)
    requires n.Inner? && i + 1 < |n.kids|
    ensures Of(n).ids
         == OfAll(n.kids[..i]).ids + (Of(n.kids[i]).ids + Of(n.kids[i + 1]).ids) + OfAll(n.kids[i + 2..]).ids
  {
    OfSplit(n.kids, i, 2);
    assert n.kids[i..i + 2] == [n.kids[i], n.kids[i + 1]];
    OfTwo(n.kids[i], n.kids[i + 1]);
  }

  lemma Neighbours(list: LeafList, ids: seq<nat>, p: nat)
    requires Chained(list, ids) && p + 1 < |ids|
    ensures LinkedTo(list, ids[p], ids[p + 1])
  {
    assert LinkedAt(list, ids, p) && LinkedAt(list, ids, p + 1);
  }

  lemma SoundPasses(n: Node, h: nat, list: LeafList)
    requires Sound(n, h) && Slots(n) >= 1 && Chained(list, Of(n).ids)
    ensures Walk(n, h, true, list)
  {
    NothingAround(Of(n).ids);
    ChainedPasses(n, h, list, [], []);
    OrderedIsSound(n, h);
    WalkIff(n, h, list);
  }

  lemma SoundLeaves(n: Node, h: nat, list: LeafList)
    requires Sound(n, h) && Chained(list, Of(n).ids)
    ensures AllLeaves(Leaves(n)) && Distinct(OfAll(Leaves(n)).ids) && |OfAll(Leaves(n)).items| == |Items(n)|
    ensures forall i, j :: 0 <= i < j < |Leaves(n)| ==> Leaves(n)[i].id != Leaves(n)[j].id
    ensures LeavesOf(list, Table(Leaves(n)), Leaves(n))
  {
    hide Of, OfAll, Leaves, Built;
    LeavesAre(n, h);
    IdsAre(Leaves(n));
    NotEmpty(n, h);
    OfNothing();
    OrderedIsSound(n, h);
  }

  /** What the whole check demands of a root, of the linked leaves and of the recorded counts. */
  ghost predicate Passes(root: Node, list: LeafList, table: map<nat, seq<Item>>, stats: Stats) {
    && Walk(root, Height(root), true, list) && Counted(Stats(0, 0, 0), Of(root)) == stats
    && exists ids :: Accepts(list, table, stats.items, ids)
  }

  /** The whole check, on any tree, sound or not, whose links stay among the leaves. */
  method VerifyParts(root: StxErase.MaybeNode, list: LeafList, table: map<nat, seq<Item>>, recorded: Stats)
    returns (ok: bool)
    requires Closed(list, table)
    ensures ok <==> root.NoNode? || Passes(root.node, list, table, recorded)
  {
    hide Of, Walk, Accepts, Closed, Counted;
    ok := true;
    if root.Some? {
      var min, max, stats;
      ok, min, max, stats := VerifyNode(root.node, Height(root.node), true, list, Stats(0, 0, 0));
      ok := ok && stats == recorded;
      var links := VerifyLeafLinks(list, table, recorded.items);
      ok := ok && links;
    }
  }

  /** Every tree the operations produce passes. */
  method Verify(t: BTree) returns (ok: bool)
    requires t.Valid()
    ensures ok
  {
    hide Of, OfAll, Sound, Walk, LeavesOf, Table, Leaves, Built, Accepts, Closed;
    var table: map<nat, seq<Item>> := map[];
    if t.root.Some? {
      var root := t.root.node;
      ghost var h :| Sound(root, h);
      SoundPasses(root, h, t.list);
      SoundLeaves(root, h, t.list);
      HeightIs(root, h);
      TreeAccepted(t.list, Table(Leaves(root)), Leaves(root));
      table := Table(Leaves(root));
    } else {
      return true;
    }
    ok := VerifyParts(t.root, t.list, table, Stats(t.itemCount, t.leafCount, t.innerCount));
  }

  /** The level of a node, which the program stores in it. */
  function Height(n: Node): (h: nat) {
    match n
    case Leaf(_, _) => 0
    case Inner(_, kids) => if kids == [] then 0 else Height(kids[0]) + 1
  }

  lemma HeightIs(n: Node, h: nat)
    requires Sound(n, h)
    ensures Height(n) == h
  {
    BuiltHeight(n, h);
  }

  lemma {:induction false} BuiltHeight(n: Node, h: nat)
    requires Built(n, h)
    ensures Height(n) == h
    decreases h
  {
    if n.Inner? {
      BuiltHeight(n.kids[0], h - 1);
    }
  }
}
