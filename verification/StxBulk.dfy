/**
 Bulk loading: how items are spread over leaves and children over inner nodes, level by level.
 */
module StxBulk {
  import opened StxNodes
  import opened StxSteps

  /** The number of nodes of capacity `cap` that `n` things need. */
  function NodesFor(n: nat, cap: nat): (k: nat)
    requires cap > 0
  {
    (n + cap - 1) / cap
  }

  lemma NodesForIs(n: nat, cap: nat)
    requires cap > 0 && n > 0
    ensures var k := NodesFor(n, cap); k >= 1 && (k - 1) * cap < n <= k * cap
  {
    var k := NodesFor(n, cap);
    assert n + cap - 1 == k * cap + (n + cap - 1) % cap;
    assert (k - 1) * cap == k * cap - cap;
  }

  /** `r` things go into `k` nodes with between `lo` and `hi` in each. */
  predicate Spreads(r: nat, k: nat, lo: nat, hi: nat) { lo * k <= r <= hi * k }

  /** What is left after the even share of one node can still be spread within the same bounds. */
  lemma EvenShare(r: nat, k: nat, lo: nat, hi: nat)
    requires k > 0 && Spreads(r, k, lo, hi)
    ensures lo <= r / k <= hi && r / k <= r && Spreads(r - r / k, k - 1, lo, hi)
  {
    var q, t := Divide(r, k);
    ShareBounds(q, t, k, lo, hi);
    ShareRest(q, t, k, lo, hi);
  }

  /** The next node's share of what is left. */
  method TakeShare(rest: nat, k: nat, ghost lo: nat, ghost hi: nat) returns (share: nat)
    requires k > 0 && Spreads(rest, k, lo, hi)
    ensures share == rest / k && lo <= share <= hi && share <= rest && Spreads(rest - share, k - 1, lo, hi)
  {
    EvenShare(rest, k, lo, hi);
    share := rest / k;
  }

  lemma Divide(r: nat, k: nat) returns (q: nat, t: nat)
    requires k > 0
    ensures q == r / k && t < k && q <= r && r == q * k + t && r - q == q * (k - 1) + t
  {
    q, t := r / k, r % k;
    OneLess(q, k);
  }

  lemma OneLess(q: nat, k: nat)
    requires k > 0
    ensures q * (k - 1) == q * k - q && q <= q * k
  {
    MulLe(1, k, q);
  }

  lemma ShareRest(q: nat, t: nat, k: nat, lo: nat, hi: nat)
    requires t < k && lo <= q <= hi && (q == hi ==> t == 0)
    ensures lo * (k - 1) <= q * (k - 1) + t <= hi * (k - 1)
  {
    MulLe(lo, q, k - 1);
    if q < hi {
      MulLe(q + 1, hi, k - 1);
      assert (q + 1) * (k - 1) == q * (k - 1) + (k - 1);
    }
  }

  lemma ShareBounds(q: nat, t: nat, k: nat, lo: nat, hi: nat)
    requires t < k && lo * k <= q * k + t <= hi * k
    ensures lo <= q <= hi && (q == hi ==> t == 0)
  {
    assert (q + 1) * k == q * k + k && (hi + 1) * k == hi * k + k;
    CancelLt(lo, q + 1, k);
    CancelLt(q, hi + 1, k);
  }

  lemma NothingLeft(r: nat, lo: nat, hi: nat)
    requires Spreads(r, 0, lo, hi)
    ensures r == 0
  {
  }

  lemma CancelLt(a: nat, b: nat, k: nat)
    requires a * k < b * k
    ensures a < b
  {
    assert (b - a) * k > 0;
  }

  lemma MulLe(a: nat, b: nat, k: nat)
    requires a <= b
    ensures a * k <= b * k
  {
  }

  /** With two nodes or more, each can be at least half full. */
  lemma HalfFull(n: nat, cap: nat, k: nat, lo: nat)
    requires k >= 2 && (k - 1) * cap < n && 2 * lo <= cap + 1
    ensures lo * k <= n
  {
    MulLe(2 * lo, cap + 1, k - 1);
    assert (cap + 1) * (k - 1) == cap * (k - 1) + (k - 1);
    assert 2 * lo * (k - 1) == lo * (2 * (k - 1));
    if 2 * lo <= cap {
      MulLe(2 * lo, cap, k - 1);
      MulLe(k, 2 * (k - 1), lo);
    } else {
      assert 2 * lo == cap + 1;
      assert lo * (2 * (k - 1)) == lo * k + lo * (k - 2);
      assert lo >= 1;
      MulLe(1, lo, k - 2);
    }
  }

  // ---------------------------------------------------------------------------------------
  // One level of inner nodes
  // ---------------------------------------------------------------------------------------

  /** A level of the tree under construction, with the largest key below each node. */
  predicate Level(nodes: seq<Node>, maxKeys: seq<int>, h: nat) {
    && |maxKeys| == |nodes|
    && (forall i :: 0 <= i < |nodes| ==> Built(nodes[i], h) && 1 <= Slots(nodes[i]) <= MaxSlots(nodes[i]))
    && (forall i :: 0 <= i < |nodes| ==> maxKeys[i] == Last(nodes[i]))
  }

  predicate AllHalf(nodes: seq<Node>) {
    forall i :: 0 <= i < |nodes| ==> !IsUnderflow(nodes[i])
  }

  /** The children from `pos` on under one node. */
  function Parent(kids: seq<Node>, maxKeys: seq<int>, pos: nat, count: nat): (n: Node)
    requires |maxKeys| == |kids| && 1 <= count && pos + count <= |kids|
  {
    Inner(maxKeys[pos..pos + count - 1], kids[pos..pos + count])
  }

  lemma ParentBuilt(kids: seq<Node>, maxKeys: seq<int>, h: nat, pos: nat, count: nat)
    requires Level(kids, maxKeys, h) && AllHalf(kids) && 1 <= count && pos + count <= |kids|
    ensures var n := Parent(kids, maxKeys, pos, count);
            Built(n, h + 1) && Last(n) == maxKeys[pos + count - 1]
  {
    var n := Parent(kids, maxKeys, pos, count);
    assert forall i :: 0 <= i < |n.kids| ==> n.kids[i] == kids[pos + i];
    assert forall i :: 0 <= i < |n.keys| ==> n.keys[i] == maxKeys[pos + i];
    assert Built(n, h + 1);
    LastOfInner(n, h + 1);
  }

  lemma ParentContent(kids: seq<Node>, maxKeys: seq<int>, pos: nat, count: nat, parents: seq<Node>)
    requires |maxKeys| == |kids| && 1 <= count && pos + count <= |kids|
    requires OfAll(parents).items == OfAll(kids[..pos]).items && OfAll(parents).ids == OfAll(kids[..pos]).ids
    ensures var all, c := OfAll(parents + [Parent(kids, maxKeys, pos, count)]), OfAll(kids[..pos + count]);
            && all.items == c.items && all.ids == c.ids
            && all.inners + OfAll(kids[..pos]).inners == OfAll(parents).inners + c.inners + 1
  {
    var n := Parent(kids, maxKeys, pos, count);
    OfAllAppend(parents, [n]);
    OfOne(n);
    assert kids[..pos + count] == kids[..pos] + kids[pos..pos + count];
    OfAllAppend(kids[..pos], kids[pos..pos + count]);
  }

  lemma LevelExtended(nodes: seq<Node>, maxKeys: seq<int>, h: nat, n: Node)
    requires Level(nodes, maxKeys, h) && Built(n, h) && 1 <= Slots(n) <= MaxSlots(n)
    ensures Level(nodes + [n], maxKeys + [Last(n)], h)
    ensures AllHalf(nodes) && !IsUnderflow(n) ==> AllHalf(nodes + [n])
  {
  }

  /** How many nodes to use for `n` things, and how few each then gets. */
  lemma Shares(n: nat, cap: nat, half: nat)
    requires n > 0 && cap > 0 && 2 * half <= cap + 1
    ensures NodesFor(n, cap) >= 1
    ensures NodesFor(n, cap) == 1 ==> Spreads(n, 1, n, cap)
    ensures NodesFor(n, cap) >= 2 ==> Spreads(n, NodesFor(n, cap), half, cap)
  {
    NodesForIs(n, cap);
    if NodesFor(n, cap) >= 2 {
      HalfFull(n, cap, NodesFor(n, cap), half);
    }
  }

  /** Puts a level of at least two nodes under as few parents as can hold it, spread evenly. */
  method BuildLevel(kids: seq<Node>, maxKeys: seq<int>, ghost h: nat) returns (parents: seq<Node>, parentMax: seq<int>)
    requires Level(kids, maxKeys, h) && AllHalf(kids) && |kids| >= 2
    ensures Level(parents, parentMax, h + 1) && 1 <= |parents| < |kids| && (|parents| > 1 ==> AllHalf(parents))
    ensures OfAll(parents).items == OfAll(kids).items && OfAll(parents).ids == OfAll(kids).ids
    ensures OfAll(parents).inners == OfAll(kids).inners + |parents|
  {
    hide Spreads, NodesFor, Built, OfAll, Of;
    var count := NodesFor(|kids|, INNER_SLOTS + 1);
    Shares(|kids|, INNER_SLOTS + 1, INNER_SLOTS / 2 + 1);
    ghost var lo := if count == 1 then |kids| else INNER_SLOTS / 2 + 1;
    FewerParents(|kids|);
    parents, parentMax := [], [];
    var pos: nat, rest: nat := 0, |kids|;
    assert kids[..0] == [];
    OfNothing();
    for i := 0 to count
      invariant |parents| == i && pos + rest == |kids| && Spreads(rest, count - i, lo, INNER_SLOTS + 1)
      invariant Level(parents, parentMax, h + 1) && (count > 1 ==> AllHalf(parents))
      invariant OfAll(parents).items == OfAll(kids[..pos]).items && OfAll(parents).ids == OfAll(kids[..pos]).ids
      invariant OfAll(parents).inners == OfAll(kids[..pos]).inners + i
    {
      var share := TakeShare(rest, count - i, lo, INNER_SLOTS + 1);
      ParentBuilt(kids, maxKeys, h, pos, share);
      ParentContent(kids, maxKeys, pos, share, parents);
      var n := Inner(maxKeys[pos..pos + share - 1], kids[pos..pos + share]);
      LevelExtended(parents, parentMax, h + 1, n);
      parents, parentMax := parents + [n], parentMax + [maxKeys[pos + share - 1]];
      pos, rest := pos + share, rest - share;
    }
    NothingLeft(rest, lo, INNER_SLOTS + 1);
    assert kids[..|kids|] == kids;
  }

  lemma FewerParents(n: nat)
    requires n >= 2
    ensures NodesFor(n, INNER_SLOTS + 1) < n
  {
    var count := NodesFor(n, INNER_SLOTS + 1);
    NodesForIs(n, INNER_SLOTS + 1);
    if count >= 2 {
      MulLe(9, INNER_SLOTS + 1, count - 1);
    }
  }
}
