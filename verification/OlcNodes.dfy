/**
 Nodes of the optimistic-lock-coupling B+tree: sorted pages, search inside a page,
 insertion into a page and the two page splits.

 The key range `(lo, hi]` of a node is not stored by the program. It is the range the node's
 ancestors route to it, and is carried here so that routing can be stated.
 */
module OlcNodes {
  import opened Options

  type Value = int

  datatype Bound = NegInf | Fin(at: int) | PosInf

  predicate Above(k: int, b: Bound) {
    b.NegInf? || (b.Fin? && b.at < k)
  }

  predicate UpTo(k: int, b: Bound) {
    b.PosInf? || (b.Fin? && k <= b.at)
  }

  // `word` counts in units of the lock bit: odd means write-locked, a fresh node starts at 2.
  datatype Node =
    | Leaf(word: nat, lo: Bound, hi: Bound, keys: seq<int>, vals: seq<Value>)
    | Inner(word: nat, lo: Bound, hi: Bound, keys: seq<int>, kids: seq<nat>)

  const FRESH_WORD: nat := 2

  predicate Covers(n: Node, k: int) {
    Above(k, n.lo) && UpTo(k, n.hi)
  }

  predicate StrictlySorted(ks: seq<int>) {
    forall i, j :: 0 <= i < j < |ks| ==> ks[i] < ks[j]
  }

  function InsertAt<T>(s: seq<T>, pos: nat, x: T): (r: seq<T>)
    requires pos <= |s|
    ensures |r| == |s| + 1
    ensures forall i :: 0 <= i <= |s| ==> r[i] == if i < pos then s[i] else if i == pos then x else s[i - 1]
  {
    seq(|s| + 1, i requires 0 <= i <= |s| => if i < pos then s[i] else if i == pos then x else s[i - 1])
  }

  lemma InsertAtSorted(ks: seq<int>, pos: nat, k: int)
    requires StrictlySorted(ks) && pos <= |ks|
    requires pos > 0 ==> ks[pos - 1] < k
    requires pos < |ks| ==> k < ks[pos]
    ensures StrictlySorted(InsertAt(ks, pos, k))
  {
    var r := InsertAt(ks, pos, k);
    forall i, j | 0 <= i < j < |r| ensures r[i] < r[j] {
      assert pos < j ==> r[j] == ks[j - 1];
      assert pos < i ==> r[i] == ks[i - 1];
    }
  }

  /** The position of the first key that is not below `k`. */
  function LowerBound(ks: seq<int>, k: int): (pos: nat)
    ensures pos <= |ks|
    ensures forall i :: 0 <= i < pos ==> ks[i] < k
    ensures pos < |ks| ==> k <= ks[pos]
  {
    ScanFrom(ks, k, 0)
  }

  function ScanFrom(ks: seq<int>, k: int, from: nat): (pos: nat)
    requires from <= |ks|
    ensures from <= pos <= |ks|
    ensures forall i :: from <= i < pos ==> ks[i] < k
    ensures pos < |ks| ==> k <= ks[pos]
    decreases |ks| - from
  {
    if from == |ks| || k <= ks[from] then from else ScanFrom(ks, k, from + 1)
  }

  lemma LowerBoundIs(ks: seq<int>, k: int, pos: nat)
    requires StrictlySorted(ks)
    requires pos <= |ks|
    requires pos > 0 ==> ks[pos - 1] < k
    requires pos < |ks| ==> k <= ks[pos]
    ensures LowerBound(ks, k) == pos
  {
  }

  /** Where a key lands in a sorted page once another key has been inserted. */
  lemma LowerBoundInsertAt(ks: seq<int>, k: int, q: int)
    requires StrictlySorted(ks) && q != k
    requires var pos := LowerBound(ks, k); pos < |ks| ==> ks[pos] != k
    ensures var pos := LowerBound(ks, k);
            var r := InsertAt(ks, pos, k);
            var p := LowerBound(ks, q);
            StrictlySorted(r) && LowerBound(r, q) == if q < k then p else p + 1
  {
    var pos := LowerBound(ks, k);
    var r := InsertAt(ks, pos, k);
    InsertAtSorted(ks, pos, k);
    var p := LowerBound(ks, q);
    if q < k {
      assert p <= pos;
      assert p < pos ==> r[p] == ks[p];
      LowerBoundIs(r, q, p);
    } else {
      assert pos <= p;
      assert pos < p ==> r[p] == ks[p - 1];
      assert p < |ks| ==> r[p + 1] == ks[p];
      LowerBoundIs(r, q, p + 1);
    }
  }

  /** Page search: a linear scan on small pages and a binary search on pages of 128 keys or more. */
  method SearchPage(ks: seq<int>, k: int) returns (pos: nat)
    requires StrictlySorted(ks)
    ensures pos <= |ks|
    ensures forall i :: 0 <= i < pos ==> ks[i] < k
    ensures forall i :: pos <= i < |ks| ==> k <= ks[i]
    ensures pos == LowerBound(ks, k)
  {
    if |ks| < 128 {
      pos := 0;
      while pos < |ks| && ks[pos] < k
        invariant pos <= |ks|
        invariant forall i :: 0 <= i < pos ==> ks[i] < k
      {
        pos := pos + 1;
      }
      LowerBoundIs(ks, k, pos);
    } else {
      var left, right := 0, |ks| - 1;
      while left <= right
        invariant 0 <= left <= |ks| && -1 <= right < |ks|
        invariant left <= right + 1
        invariant forall i :: 0 <= i < left ==> ks[i] < k
        invariant forall i :: right < i < |ks| ==> k < ks[i]
      {
        var mid := left + (right - left) / 2;
        if ks[mid] == k {
          LowerBoundIs(ks, k, mid);
          return mid;
        } else if ks[mid] < k {
          left := mid + 1;
        } else {
          right := mid - 1;
        }
      }
      pos := left;
      LowerBoundIs(ks, k, pos);
    }
  }

  // ---------------------------------------------------------------------------------------
  // One page
  // ---------------------------------------------------------------------------------------

  /** What holds of one page regardless of the rest of the tree. */
  ghost predicate PageOk(n: Node) {
    && StrictlySorted(n.keys)
    && (forall i :: 0 <= i < |n.keys| ==> Covers(n, n.keys[i]))
    && match n
       case Leaf(_, _, _, keys, vals) => |vals| == |keys|
       case Inner(_, _, hi, keys, kids) =>
         && |kids| == |keys| + 1
         && forall i :: 0 <= i < |keys| ==> hi != Fin(keys[i])
  }

  function LeafGet(n: Node, k: int): (r: Option<Value>)
    requires n.Leaf? && |n.vals| == |n.keys|
  {
    var pos := LowerBound(n.keys, k);
    if pos < |n.keys| && n.keys[pos] == k then Some(n.vals[pos]) else None
  }

  lemma LeafGetAt(n: Node, i: nat)
    requires n.Leaf? && PageOk(n) && i < |n.keys|
    ensures LeafGet(n, n.keys[i]) == Some(n.vals[i])
  {
    LowerBoundIs(n.keys, n.keys[i], i);
  }

  lemma LeafGetNone(n: Node, k: int)
    requires n.Leaf? && PageOk(n) && k !in n.keys
    ensures LeafGet(n, k) == None
  {
  }

  /** Leaf insertion: an existing key keeps its value. */
  function LeafPut(n: Node, k: int, v: Value): (r: Node)
    requires n.Leaf? && |n.vals| == |n.keys|
  {
    var pos := LowerBound(n.keys, k);
    if pos < |n.keys| && n.keys[pos] == k then n
    else n.(keys := InsertAt(n.keys, pos, k), vals := InsertAt(n.vals, pos, v))
  }

  lemma LeafPutOk(n: Node, k: int, v: Value)
    requires n.Leaf? && PageOk(n) && Covers(n, k)
    ensures PageOk(LeafPut(n, k, v))
    ensures |LeafPut(n, k, v).keys| == |n.keys| + if LeafGet(n, k).None? then 1 else 0
  {
    var pos := LowerBound(n.keys, k);
    if !(pos < |n.keys| && n.keys[pos] == k) {
      var r := LeafPut(n, k, v);
      InsertAtSorted(n.keys, pos, k);
      forall i | 0 <= i < |r.keys| ensures Covers(r, r.keys[i]) {
        assert i < pos ==> Covers(n, n.keys[i]);
        assert pos < i ==> r.keys[i] == n.keys[i - 1];
      }
    }
  }

  /** A put adds exactly one binding, and only when the key was absent. */
  lemma LeafPutGet(n: Node, k: int, v: Value, q: int)
    requires n.Leaf? && |n.vals| == |n.keys| && StrictlySorted(n.keys)
    ensures LeafGet(LeafPut(n, k, v), q)
         == if q == k && LeafGet(n, k).None? then Some(v) else LeafGet(n, q)
  {
    var pos := LowerBound(n.keys, k);
    if !(pos < |n.keys| && n.keys[pos] == k) {
      if q == k {
        InsertAtSorted(n.keys, pos, k);
        LowerBoundIs(LeafPut(n, k, v).keys, k, pos);
      } else {
        OtherKept(n, k, v, q);
      }
    }
  }

  lemma OtherKept(n: Node, k: int, v: Value, q: int)
    requires n.Leaf? && |n.vals| == |n.keys| && StrictlySorted(n.keys) && q != k
    requires var pos := LowerBound(n.keys, k); !(pos < |n.keys| && n.keys[pos] == k)
    ensures LeafGet(LeafPut(n, k, v), q) == LeafGet(n, q)
  {
    var r := LeafPut(n, k, v);
    LowerBoundInsertAt(n.keys, k, q);
    var p := LowerBound(n.keys, q);
    var p' := if q < k then p else p + 1;
    assert LowerBound(r.keys, q) == p';
    if p < |n.keys| && n.keys[p] == q {
      assert r.keys[p'] == q && r.vals[p'] == n.vals[p];
    } else {
      assert p' < |r.keys| ==> r.keys[p'] != q;
    }
  }

  function RemoveAt<T>(s: seq<T>, pos: nat): (r: seq<T>)
    requires pos < |s|
    ensures |r| == |s| - 1
    ensures forall i :: 0 <= i < |s| - 1 ==> r[i] == if i < pos then s[i] else s[i + 1]
  {
    seq(|s| - 1, i requires 0 <= i < |s| - 1 => if i < pos then s[i] else s[i + 1])
  }

  /** A leaf without the key, whether or not it held it. */
  function LeafCut(n: Node, k: int): (r: Node)
    requires n.Leaf? && |n.vals| == |n.keys|
  {
    var pos := LowerBound(n.keys, k);
    if pos < |n.keys| && n.keys[pos] == k then n.(keys := RemoveAt(n.keys, pos), vals := RemoveAt(n.vals, pos))
    else n
  }

  lemma LeafCutOk(n: Node, k: int)
    requires n.Leaf? && PageOk(n)
    ensures PageOk(LeafCut(n, k)) && |LeafCut(n, k).keys| <= |n.keys|
  {
    var r, pos := LeafCut(n, k), LowerBound(n.keys, k);
    forall i | 0 <= i < |r.keys| ensures Covers(r, r.keys[i]) {
      assert Covers(n, n.keys[i]) && (i + 1 < |n.keys| ==> Covers(n, n.keys[i + 1]));
    }
  }

  lemma LeafCutGet(n: Node, k: int, q: int)
    requires n.Leaf? && PageOk(n)
    ensures LeafGet(LeafCut(n, k), q) == if q == k then None else LeafGet(n, q)
  {
    var r, pos := LeafCut(n, k), LowerBound(n.keys, k);
    if pos < |n.keys| && n.keys[pos] == k {
      var p := LowerBound(n.keys, q);
      var p' := if q <= k then p else p - 1;
      CutLowerBound(n.keys, pos, q);
      assert q > k ==> p > pos;
    }
  }

  lemma CutLowerBound(ks: seq<int>, pos: nat, q: int)
    requires StrictlySorted(ks) && pos < |ks|
    ensures StrictlySorted(RemoveAt(ks, pos))
    ensures LowerBound(RemoveAt(ks, pos), q) == if q <= ks[pos] then LowerBound(ks, q) else LowerBound(ks, q) - 1
  {
    var r, p := RemoveAt(ks, pos), LowerBound(ks, q);
    LowerBoundIs(r, q, if q <= ks[pos] then p else p - 1);
  }

  // ---------------------------------------------------------------------------------------
  // Splits
  // ---------------------------------------------------------------------------------------

  datatype Split = Split(left: Node, right: Node, sep: int)

  function SplitLeaf(n: Node): (s: Split)
    requires n.Leaf? && |n.vals| == |n.keys| && 2 <= |n.keys|
  {
    var half := |n.keys| / 2;
    var sep := n.keys[half - 1];
    Split(n.(hi := Fin(sep), keys := n.keys[..half], vals := n.vals[..half]),
          Leaf(FRESH_WORD, Fin(sep), n.hi, n.keys[half..], n.vals[half..]),
          sep)
  }

  function SplitInner(n: Node): (s: Split)
    requires n.Inner? && |n.kids| == |n.keys| + 1 && 2 <= |n.keys|
  {
    var right := |n.keys| - |n.keys| / 2;
    var left := |n.keys| - right - 1;
    var sep := n.keys[left];
    Split(n.(hi := Fin(sep), keys := n.keys[..left], kids := n.kids[..left + 1]),
          Inner(FRESH_WORD, Fin(sep), n.hi, n.keys[left + 1..], n.kids[left + 1..]),
          sep)
  }

  function SplitNode(n: Node): (s: Split)
    requires PageOk(n) && 2 <= |n.keys|
  {
    if n.Leaf? then SplitLeaf(n) else SplitInner(n)
  }

  /** A split cuts the range at the separator and loses and invents nothing. */
  ghost predicate IsSplit(n: Node, s: Split) {
    && s.left.lo == n.lo && s.left.hi == Fin(s.sep)
    && s.right.lo == Fin(s.sep) && s.right.hi == n.hi
    && Covers(n, s.sep) && n.hi != Fin(s.sep)
    && match n
       case Leaf(_, _, _, keys, vals) =>
         && s.left.Leaf? && s.right.Leaf?
         && s.left.keys + s.right.keys == keys
         && s.left.vals + s.right.vals == vals
       case Inner(_, _, _, keys, kids) =>
         && s.left.Inner? && s.right.Inner?
         && s.left.keys + [s.sep] + s.right.keys == keys
         && s.left.kids + s.right.kids == kids
  }

  lemma SplitLeafOk(n: Node)
    requires n.Leaf? && PageOk(n) && 2 <= |n.keys|
    ensures var s := SplitNode(n); IsSplit(n, s) && PageOk(s.left) && PageOk(s.right)
  {
    var s := SplitNode(n);
    var half := |n.keys| / 2;
    assert n.keys[..half] + n.keys[half..] == n.keys;
    assert n.vals[..half] + n.vals[half..] == n.vals;
    assert Covers(n, n.keys[half - 1]) && Covers(n, n.keys[half]);
    forall i | 0 <= i < |s.left.keys| ensures Covers(s.left, s.left.keys[i]) {
      assert Covers(n, n.keys[i]);
    }
    forall i | 0 <= i < |s.right.keys| ensures Covers(s.right, s.right.keys[i]) {
      assert Covers(n, n.keys[half + i]);
    }
  }

  lemma SplitInnerOk(n: Node)
    requires n.Inner? && PageOk(n) && 2 <= |n.keys|
    ensures var s := SplitNode(n); IsSplit(n, s) && PageOk(s.left) && PageOk(s.right)
  {
    var s := SplitNode(n);
    var left := |n.keys| - (|n.keys| - |n.keys| / 2) - 1;
    assert n.keys[..left] + [n.keys[left]] + n.keys[left + 1..] == n.keys;
    assert n.kids[..left + 1] + n.kids[left + 1..] == n.kids;
    assert Covers(n, n.keys[left]);
    forall i | 0 <= i < |s.left.keys| ensures Covers(s.left, s.left.keys[i]) {
      assert Covers(n, n.keys[i]);
    }
    forall i | 0 <= i < |s.right.keys| ensures Covers(s.right, s.right.keys[i]) {
      assert Covers(n, n.keys[left + 1 + i]);
    }
  }

  /** An inner page left without keys by its own split: full pages of a capacity below five. */
  lemma SplitLeavesKeys(n: Node, innerMax: nat)
    requires n.Inner? && PageOk(n) && innerMax >= 3 && |n.keys| == innerMax - 1
    ensures |SplitNode(n).right.keys| >= 1
    ensures |SplitNode(n).left.keys| >= 1 <==> innerMax >= 5
  {
  }

  lemma SplitOk(n: Node)
    requires PageOk(n) && 2 <= |n.keys|
    ensures var s := SplitNode(n);
            && IsSplit(n, s) && PageOk(s.left) && PageOk(s.right)
            && s.left.word == n.word && s.right.word == FRESH_WORD
            && |s.left.keys| < |n.keys| && |s.right.keys| < |n.keys|
  {
    hide IsSplit, PageOk;
    if n.Leaf? {
      SplitLeafOk(n);
    } else {
      SplitInnerOk(n);
    }
  }

  /** After a leaf split a key is found exactly on the side of the separator it belongs to. */
  lemma SplitLeafGet(n: Node, s: Split, q: int)
    requires n.Leaf? && PageOk(n) && IsSplit(n, s) && PageOk(s.left) && PageOk(s.right)
    requires Covers(n, q)
    ensures LeafGet(n, q) == LeafGet(if q <= s.sep then s.left else s.right, q)
  {
    var side := if q <= s.sep then s.left else s.right;
    if q in n.keys {
      var i :| 0 <= i < |n.keys| && n.keys[i] == q;
      LeafGetAt(n, i);
      if i < |s.left.keys| {
        assert s.left.keys[i] == q && Covers(s.left, s.left.keys[i]);
        LeafGetAt(s.left, i);
      } else {
        var j := i - |s.left.keys|;
        assert s.right.keys[j] == q && Covers(s.right, s.right.keys[j]);
        LeafGetAt(s.right, j);
      }
    } else {
      LeafGetNone(n, q);
      assert forall x :: x in side.keys ==> x in n.keys;
      LeafGetNone(side, q);
    }
  }

  /** Adds a separator and the child to its right. */
  function InnerPut(n: Node, sep: int, child: nat): (r: Node)
    requires n.Inner? && |n.kids| == |n.keys| + 1
  {
    var pos := LowerBound(n.keys, sep);
    n.(keys := InsertAt(n.keys, pos, sep), kids := InsertAt(n.kids, pos + 1, child))
  }

  function SlotLo(n: Node, i: nat): Bound
    requires n.Inner? && i <= |n.keys|
  {
    if i == 0 then n.lo else Fin(n.keys[i - 1])
  }

  function SlotHi(n: Node, i: nat): Bound
    requires n.Inner? && i <= |n.keys|
  {
    if i == |n.keys| then n.hi else Fin(n.keys[i])
  }

  /** If the slot of the split child is `i`, the new separator and child go right after it. */
  lemma InnerPutAt(n: Node, sep: int, child: nat, i: nat)
    requires n.Inner? && PageOk(n) && i <= |n.keys|
    requires Above(sep, SlotLo(n, i)) && UpTo(sep, SlotHi(n, i)) && SlotHi(n, i) != Fin(sep)
    requires n.hi != Fin(sep) && Covers(n, sep)
    ensures LowerBound(n.keys, sep) == i
    ensures PageOk(InnerPut(n, sep, child))
  {
    LowerBoundIs(n.keys, sep, i);
    InsertAtSorted(n.keys, i, sep);
    var r := InnerPut(n, sep, child);
    forall a | 0 <= a < |r.keys| ensures Covers(r, r.keys[a]) && r.hi != Fin(r.keys[a]) {
      assert a < i ==> Covers(n, n.keys[a]);
      assert i < a ==> r.keys[a] == n.keys[a - 1];
    }
  }

  /** The child a key is routed to is the one whose slot range covers the key. */
  lemma RouteCovers(n: Node, k: int)
    requires n.Inner? && PageOk(n) && Covers(n, k)
    ensures var i := LowerBound(n.keys, k);
            i <= |n.keys| && Above(k, SlotLo(n, i)) && UpTo(k, SlotHi(n, i))
  {
  }
}
