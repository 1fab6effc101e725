/**
 The adaptive radix tree: well-formed subtrees, the entries below them in key order, search, insertion
 and deletion with path compression.
 */
module ArtTree {
  import opened ArtNodes
  import opened ArtLayout
  import opened ArtSlots

  const MAX_PREFIX: nat := 9

  type Key = seq<Byte>

  /** A subtree below the path `path`: all its keys continue that path and the prefixes on the way. */
  ghost predicate WellFormed(n: Node, path: Key) {
    match n
    case Null => false
    case Leaf(e) => |e.key| == KEY_LENGTH && path <= e.key
    case _ =>
      && Layout(n) && Sized(n) && |path| + |n.prefix| < KEY_LENGTH
      && forall b: Byte :: Child(n, b) != Null ==> WellFormed(Child(n, b), path + n.prefix + [b])
  }

  // ---------------------------------------------------------------------------------------
  // Entries
  // ---------------------------------------------------------------------------------------

  /** The entries below a node, by ascending byte. */
  ghost function Entries(n: Node): (s: seq<Entry>)
    decreases n, 300
  {
    match n
    case Null => []
    case Leaf(e) => [e]
    case _ => Range(n, 0, 256)
  }

  /** The entries below the children at bytes from `lo` up to `hi`. */
  ghost function Range(n: Node, lo: nat, hi: nat): (s: seq<Entry>)
    requires hi <= 256
    decreases n, hi - lo
  {
    if lo >= hi then []
    else (if Child(n, lo) == Null then [] else Entries(Child(n, lo))) + Range(n, lo + 1, hi)
  }

  lemma {:induction false} RangeSplit(n: Node, lo: nat, mid: nat, hi: nat)
    requires lo <= mid <= hi <= 256
    ensures Range(n, lo, hi) == Range(n, lo, mid) + Range(n, mid, hi)
    decreases mid - lo
  {
    if lo < mid {
      RangeSplit(n, lo + 1, mid, hi);
    }
  }

  lemma {:induction false} RangeSame(n: Node, m: Node, lo: nat, hi: nat)
    requires hi <= 256 && forall b: Byte :: lo <= b < hi ==> Child(m, b) == Child(n, b)
    ensures Range(m, lo, hi) == Range(n, lo, hi)
    decreases hi - lo
  {
    if lo < hi {
      var b: Byte := lo;
      assert Child(m, b) == Child(n, b);
      RangeSame(n, m, lo + 1, hi);
    }
  }

  lemma {:induction false} RangeNone(n: Node, lo: nat, hi: nat)
    requires hi <= 256 && forall b: Byte :: lo <= b < hi ==> Child(n, b) == Null
    ensures Range(n, lo, hi) == []
    decreases hi - lo
  {
    if lo < hi {
      var b: Byte := lo;
      assert Child(n, b) == Null;
      RangeNone(n, lo + 1, hi);
    }
  }

  lemma SmallerChild(n: Node, b: Byte)
    requires Child(n, b) != Null
    ensures Child(n, b) < n
  {
  }

  lemma EntriesAround(n: Node, b: Byte)
    requires IsInner(n)
    ensures Entries(n) == Range(n, 0, b) + Entries(Child(n, b)) + Range(n, b + 1, 256)
  {
    RangeSplit(n, 0, b, 256);
  }

  lemma DiffersEntries(n: Node, n': Node, b: Byte, c: Node)
    requires IsInner(n') && Differs(n, n', b, c)
    ensures Entries(n') == Range(n, 0, b) + Entries(c) + Range(n, b + 1, 256)
  {
    hide Child;
    EntriesAround(n', b);
    RangeSame(n, n', 0, b);
    RangeSame(n, n', b + 1, 256);
  }

  lemma SameEntries(n: Node, n': Node)
    requires IsInner(n) && IsInner(n') && SameKids(n, n')
    ensures Entries(n') == Entries(n)
  {
    RangeSame(n, n', 0, 256);
  }

  lemma RangeFirst(n: Node, b: Byte, hi: nat)
    requires b < hi <= 256
    ensures Range(n, b, hi) == Entries(Child(n, b)) + Range(n, b + 1, hi)
  {
    hide Child;
  }

  lemma {:induction false} InRange(n: Node, lo: nat, hi: nat, e: Entry)
    requires hi <= 256
    ensures e in Range(n, lo, hi) <==> exists b: Byte :: lo <= b < hi && e in Entries(Child(n, b))
    decreases hi - lo
  {
    hide Child;
    if lo < hi {
      hide Entries, Range;
      var x: Byte := lo;
      RangeFirst(n, x, hi);
      InRange(n, lo + 1, hi, e);
    }
  }

  /** Every key below a subtree has the full length and continues the path. */
  lemma {:induction false} EntryPath(n: Node, path: Key, e: Entry)
    requires WellFormed(n, path) && e in Entries(n)
    ensures |e.key| == KEY_LENGTH && path <= e.key
    decreases n
  {
    hide Child, Range;
    if IsInner(n) {
      InRange(n, 0, 256, e);
      var b: Byte :| e in Entries(Child(n, b));
      var c := Child(n, b);
      assert c != Null && WellFormed(c, path + n.prefix + [b]);
      EntryPath(c, path + n.prefix + [b], e);
    }
  }

  /** An entry below an inner node is below the child for the byte that follows the prefix. */
  lemma RouteEntry(n: Node, path: Key, e: Entry)
    requires IsInner(n) && WellFormed(n, path) && e in Entries(n)
    ensures |e.key| == KEY_LENGTH && path + n.prefix <= e.key && |path + n.prefix| < |e.key|
    ensures e in Entries(Child(n, e.key[|path + n.prefix|]))
  {
    hide Child, Range;
    InRange(n, 0, 256, e);
    var b: Byte :| e in Entries(Child(n, b));
    var c, p := Child(n, b), path + n.prefix;
    assert c != Null && WellFormed(c, p + [b]);
    EntryPath(c, p + [b], e);
    assert (p + [b])[|p|] == b;
  }

  lemma ChildEntry(n: Node, b: Byte, e: Entry)
    requires IsInner(n) && e in Entries(Child(n, b))
    ensures e in Entries(n)
  {
    InRange(n, 0, 256, e);
  }

  // ---------------------------------------------------------------------------------------
  // Search
  // ---------------------------------------------------------------------------------------

  /** The number of prefix bytes the key agrees with. */
  method PrefixMismatch(n: Node, key: Key, depth: nat) returns (pos: nat)
    requires IsInner(n) && depth + |n.prefix| <= |key|
    ensures pos <= |n.prefix| && key[depth..depth + pos] == n.prefix[..pos]
    ensures pos < |n.prefix| ==> key[depth + pos] != n.prefix[pos]
  {
    pos := 0;
    while pos < |n.prefix| && key[depth + pos] == n.prefix[pos]
      invariant pos <= |n.prefix| && forall j :: 0 <= j < pos ==> key[depth + j] == n.prefix[j]
    {
      pos := pos + 1;
    }
    assert forall j :: 0 <= j < pos ==> key[depth..depth + pos][j] == n.prefix[..pos][j];
  }

  /** Compares the loaded key with the searched one, from `depth` on. */
  method LeafMatches(leaf: Node, key: Key, depth: nat) returns (ok: bool)
    requires leaf.Leaf? && |leaf.entry.key| == |key| && depth <= |key| && leaf.entry.key[..depth] == key[..depth]
    ensures ok <==> leaf.entry.key == key
  {
    ok := true;
    var i := depth;
    assert forall j :: 0 <= j < depth ==> leaf.entry.key[..depth][j] == leaf.entry.key[j] && key[..depth][j] == key[j];
    while i < |key|
      invariant depth <= i <= |key| && forall j :: 0 <= j < i ==> leaf.entry.key[j] == key[j]
    {
      if leaf.entry.key[i] != key[i] {
        return false;
      }
      i := i + 1;
    }
  }

  /** Searching for `key` below `n` and below `m` comes to the same. */
  ghost predicate SameAnswer(n: Node, m: Node, key: Key) {
    forall e: Entry :: e.key == key ==> (e in Entries(n) <==> e in Entries(m))
  }

  ghost predicate IsAnswer(n: Node, key: Key, r: Node) {
    if r == Null then forall e: Entry :: e in Entries(n) ==> e.key != key
    else r.Leaf? && r.entry.key == key && r.entry in Entries(n)
  }

  lemma DeadEnd(n: Node, path: Key, key: Key)
    requires IsInner(n) && WellFormed(n, path) && !(path + n.prefix <= key)
    ensures forall e: Entry :: e in Entries(n) ==> e.key != key
  {
    hide Entries, WellFormed;
    forall e: Entry | e in Entries(n) ensures e.key != key {
      RouteEntry(n, path, e);
    }
  }

  lemma GoDown(n: Node, path: Key, key: Key)
    requires IsInner(n) && WellFormed(n, path) && |key| == KEY_LENGTH && path + n.prefix <= key
    ensures |path + n.prefix| < |key|
    ensures var b, p := key[|path + n.prefix|], path + n.prefix;
            && SameAnswer(n, Child(n, b), key) && key[..|p| + 1] == p + [b]
            && (Child(n, b) != Null ==> WellFormed(Child(n, b), p + [b]))
  {
    hide Child, Range;
    var p := path + n.prefix;
    var b := key[|p|];
    forall e: Entry | e.key == key ensures e in Entries(n) <==> e in Entries(Child(n, b)) {
      if e in Entries(n) {
        RouteEntry(n, path, e);
      } else if e in Entries(Child(n, b)) {
        ChildEntry(n, b, e);
      }
    }
  }

  /** A prefix byte that differs ends the search. */
  lemma Mismatch(root: Node, n: Node, key: Key, depth: nat, pos: nat)
    requires depth <= |key| && IsInner(n) && WellFormed(n, key[..depth]) && SameAnswer(root, n, key)
    requires pos < |n.prefix| && depth + pos < |key| && key[depth + pos] != n.prefix[pos]
    ensures IsAnswer(root, key, Null)
  {
    hide Entries, WellFormed;
    var p := key[..depth] + n.prefix;
    assert p[depth + pos] == n.prefix[pos];
    DeadEnd(n, key[..depth], key);
  }

  /** A prefix that agrees leads on to one child. */
  lemma Down(root: Node, n: Node, key: Key, depth: nat)
    requires |key| == KEY_LENGTH && depth <= |key| && IsInner(n) && WellFormed(n, key[..depth])
             && SameAnswer(root, n, key)
    requires depth + |n.prefix| <= |key| && key[depth..depth + |n.prefix|] == n.prefix
    ensures var d := depth + |n.prefix|;
            && d < |key| && SameAnswer(root, Child(n, key[d]), key)
            && (Child(n, key[d]) != Null ==> WellFormed(Child(n, key[d]), key[..d + 1]))
  {
    hide Entries, WellFormed, Child;
    assert key[..depth] + n.prefix == key[..depth + |n.prefix|];
    GoDown(n, key[..depth], key);
  }

  /** The optimistic search; prefixes too long to be stored are skipped and checked at the leaf. */
  method Lookup(root: Node, key: Key) returns (r: Node)
    requires (root == Null || WellFormed(root, [])) && |key| == KEY_LENGTH
    ensures IsAnswer(root, key, r)
  {
    hide Child, Range, Entries, Layout, Sized;
    var node, depth, skipped := root, 0, false;
    assert key[..0] == [];
    while node != Null
      invariant depth <= |key| && !skipped && (node == Null || WellFormed(node, key[..depth]))
      invariant SameAnswer(root, node, key)
      decreases |key| + 1 - depth, node != Null
    {
      if node.Leaf? {
        LeafAnswer(root, node, key);
        if !skipped && depth == |key| {
          assert key[..depth] == key && node.entry.key == key;
          return node;
        }
        var ok := LeafMatches(node, key, if skipped then 0 else depth);
        return if ok then node else Null;
      }
      if |node.prefix| < MAX_PREFIX {
        var pos := PrefixMismatch(node, key, depth);
        if pos != |node.prefix| {
          Mismatch(root, node, key, depth, pos);
          return Null;
        }
      } else {
        skipped := true;
      }
      Down(root, node, key, depth);
      depth := depth + |node.prefix|;
      node := Child(node, key[depth]);
      depth := depth + 1;
    }
    NothingThere(root, key);
    return Null;
  }

  lemma SameAsItself(n: Node, key: Key)
    ensures SameAnswer(n, n, key)
  {
  }

  lemma LeafAnswer(root: Node, leaf: Node, key: Key)
    requires leaf.Leaf? && SameAnswer(root, leaf, key)
    ensures if leaf.entry.key == key then leaf.entry in Entries(root) else forall e: Entry :: e in Entries(root) ==>
            e.key != key
  {
  }

  lemma NothingThere(root: Node, key: Key)
    requires SameAnswer(root, Null, key)
    ensures IsAnswer(root, key, Null)
  {
  }

  /** The pessimistic search, which compares every prefix. */
  method LookupPessimistic(root: Node, key: Key) returns (r: Node)
    requires (root == Null || WellFormed(root, [])) && |key| == KEY_LENGTH
    ensures IsAnswer(root, key, r)
  {
    hide Child, Range, Entries, Layout, Sized, SameAnswer;
    SameAsItself(root, key);
    var node, depth := root, 0;
    assert key[..0] == [];
    while node != Null
      invariant depth <= |key| && (node == Null || WellFormed(node, key[..depth])) && SameAnswer(root, node, key)
      decreases |key| + 1 - depth, node != Null
    {
      if node.Leaf? {
        LeafAnswer(root, node, key);
        var ok := LeafMatches(node, key, depth);
        return if ok then node else Null;
      }
      var pos := PrefixMismatch(node, key, depth);
      if pos != |node.prefix| {
        Mismatch(root, node, key, depth, pos);
        return Null;
      }
      Down(root, node, key, depth);
      depth := depth + |node.prefix|;
      node := Child(node, key[depth]);
      depth := depth + 1;
    }
    NothingThere(root, key);
    return Null;
  }
}
