/**
 Insertion and deletion in the adaptive radix tree, and the index that counts its items.
 */
module ArtIndex {
  import opened ArtNodes
  import opened ArtLayout
  import opened ArtSlots
  import opened ArtTree

  /** `s'` is `s` with one entry put in. */
  ghost predicate IsInsert(s: seq<Entry>, s': seq<Entry>, e: Entry) {
    exists i :: 0 <= i <= |s| && s' == s[..i] + [e] + s[i..]
  }

  /** `s'` is `s` with one entry, that of the key, taken out. */
  ghost predicate IsRemove(s: seq<Entry>, s': seq<Entry>, key: Key) {
    exists i :: 0 <= i < |s| && s[i].key == key && s' == s[..i] + s[i + 1..]
  }

  lemma InsertAround(a: seq<Entry>, s: seq<Entry>, s': seq<Entry>, b: seq<Entry>, e: Entry)
    requires IsInsert(s, s', e)
    ensures IsInsert(a + s + b, a + s' + b, e)
  {
    var i :| 0 <= i <= |s| && s' == s[..i] + [e] + s[i..];
    var t, j := a + s + b, |a| + i;
    assert t[..j] == a + s[..i] && t[j..] == s[i..] + b;
    assert a + s' + b == t[..j] + [e] + t[j..];
  }

  lemma RemoveAround(a: seq<Entry>, s: seq<Entry>, s': seq<Entry>, b: seq<Entry>, key: Key)
    requires IsRemove(s, s', key)
    ensures IsRemove(a + s + b, a + s' + b, key)
  {
    var i :| 0 <= i < |s| && s[i].key == key && s' == s[..i] + s[i + 1..];
    RemoveInside(a, s, b, i);
  }

  lemma RemoveInside(a: seq<Entry>, s: seq<Entry>, b: seq<Entry>, i: nat)
    requires i < |s|
    ensures var t, j := a + s + b, |a| + i; t[j] == s[i] && t[..j] + t[j + 1..] == a + (s[..i] + s[i + 1..]) + b
  {
    var t, j := a + s + b, |a| + i;
    assert t[..j] == a + s[..i] && t[j + 1..] == s[i + 1..] + b;
  }

  ghost predicate NoKey(s: seq<Entry>, key: Key) {
    forall e: Entry :: e in s ==> e.key != key
  }

  // ---------------------------------------------------------------------------------------
  // Rebuilding nodes
  // ---------------------------------------------------------------------------------------

  /** All children of `n` stand below `path`. */
  ghost predicate KidsUnder(n: Node, path: Key) {
    forall b: Byte :: Child(n, b) != Null ==> WellFormed(Child(n, b), path + [b])
  }

  lemma KidsOf(n: Node, path: Key)
    requires IsInner(n)
    ensures WellFormed(n, path) <==>
            Layout(n) && Sized(n) && |path| + |n.prefix| < KEY_LENGTH && KidsUnder(n, path + n.prefix)
  {
  }

  lemma KidsPut(n: Node, n': Node, path: Key, b: Byte, c: Node)
    requires KidsUnder(n, path) && Differs(n, n', b, c) && (c != Null ==> WellFormed(c, path + [b]))
    ensures KidsUnder(n', path)
  {
    hide Child, WellFormed;
    forall x: Byte | Child(n', x) != Null ensures WellFormed(Child(n', x), path + [x]) {
    }
  }

  /** The same children under another prefix, reached by another path. */
  lemma Rebase(n: Node, path: Key, path': Key, prefix: Key)
    requires IsInner(n) && WellFormed(n, path) && path' + prefix == path + n.prefix
    ensures WellFormed(WithPrefix(n, prefix), path') && Entries(WithPrefix(n, prefix)) == Entries(n)
  {
    WithPrefixOk(n, prefix);
    var n' := WithPrefix(n, prefix);
    KidsOf(n, path);
    assert KidsUnder(n', path' + prefix) by {
      hide Child, WellFormed;
      forall x: Byte | Child(n', x) != Null ensures WellFormed(Child(n', x), path' + prefix + [x]) {
        assert Child(n', x) == Child(n, x);
      }
    }
    KidsOf(n', path');
    SameEntries(n, n');
  }

  lemma AddedEntries(n: Node, n': Node, b: Byte, e: Entry)
    requires IsInner(n) && IsInner(n') && Differs(n, n', b, Leaf(e)) && Child(n, b) == Null
    ensures IsInsert(Entries(n), Entries(n'), e)
  {
    hide Child, Range;
    EntriesAround(n, b);
    DiffersEntries(n, n', b, Leaf(e));
    var i := |Range(n, 0, b)|;
    assert Entries(n)[..i] == Range(n, 0, b) && Entries(n)[i..] == Range(n, b + 1, 256);
  }

  lemma ReplacedEntries(n: Node, n': Node, b: Byte, c: Node, e: Entry)
    requires IsInner(n) && IsInner(n') && Differs(n, n', b, c) && IsInsert(Entries(Child(n, b)), Entries(c), e)
    ensures IsInsert(Entries(n), Entries(n'), e)
  {
    hide Child, Range, IsInsert;
    EntriesAround(n, b);
    DiffersEntries(n, n', b, c);
    InsertAround(Range(n, 0, b), Entries(Child(n, b)), Entries(c), Range(n, b + 1, 256), e);
  }

  // ---------------------------------------------------------------------------------------
  // A new node with two children
  // ---------------------------------------------------------------------------------------

  lemma NoKids(prefix: Key)
    ensures var n := Node4(prefix, [], []);
            Layout(n) && Count(n) == 0 && Entries(n) == [] && forall b: Byte :: Child(n, b) == Null
  {
    var n := Node4(prefix, [], []);
    forall b: Byte ensures Child(n, b) == Null {
      KidNone([], [], b);
    }
    RangeNone(n, 0, 256);
  }

  /** An existing subtree and a new leaf that part ways after `path + prefix`. */
  method Fork(ghost path: Key, prefix: Key, b: Byte, sub: Node, c: Byte, e: Entry) returns (n': Node)
    requires b != c && |path| + |prefix| < KEY_LENGTH && sub != Null
    requires WellFormed(sub, path + prefix + [b]) && WellFormed(Leaf(e), path + prefix + [c])
    ensures IsInner(n') && WellFormed(n', path) && IsInsert(Entries(sub), Entries(n'), e)
  {
    hide WellFormed, Range;
    var n0 := Node4(prefix, [], []);
    NoKids(prefix);
    var n1 := InsertNode4(n0, b, sub);
    assert KidsUnder(n1, path + prefix) by {
      assert KidsUnder(n0, path + prefix);
      KidsPut(n0, n1, path + prefix, b, sub);
    }
    OneKidEntries(n0, n1, b, sub);
    n' := InsertNode4(n1, c, Leaf(e));
    KidsPut(n1, n', path + prefix, c, Leaf(e));
    AddedEntries(n1, n', c, e);
    KidsOf(n', path);
  }

  lemma OneKidEntries(n0: Node, n1: Node, b: Byte, c: Node)
    requires IsInner(n0) && IsInner(n1) && Differs(n0, n1, b, c) && forall x: Byte :: Child(n0, x) == Null
    ensures Entries(n1) == Entries(c)
  {
    hide Child;
    DiffersEntries(n0, n1, b, c);
    RangeNone(n0, 0, b);
    RangeNone(n0, b + 1, 256);
  }

  // ---------------------------------------------------------------------------------------
  // Insertion
  // ---------------------------------------------------------------------------------------

  /** Replaces a leaf by a node for the common part of both keys. */
  method SplitLeaf(leaf: Node, key: Key, depth: nat, e: Entry) returns (n': Node)
    requires leaf.Leaf? && depth <= |key| == KEY_LENGTH && WellFormed(leaf, key[..depth]) && e.key == key
             && leaf.entry.key != key
    ensures WellFormed(n', key[..depth]) && IsInsert(Entries(leaf), Entries(n'), e)
  {
    var old' := leaf.entry.key;
    var p := depth;
    assert forall j :: 0 <= j < depth ==> key[..depth][j] == old'[j];
    while p < |key| && old'[p] == key[p]
      invariant depth <= p <= |key| && forall j :: 0 <= j < p ==> old'[j] == key[j]
    {
      p := p + 1;
    }
    assert p < |key|;
    ghost var path := key[..depth];
    assert path + key[depth..p] == key[..p] == old'[..p];
    assert path + key[depth..p] + [old'[p]] == old'[..p + 1];
    assert path + key[depth..p] + [key[p]] == key[..p + 1];
    n' := Fork(path, key[depth..p], old'[p], leaf, key[p], e);
  }

  /** Breaks up the prefix of a node where the key leaves it. */
  method SplitPrefix(n: Node, key: Key, depth: nat, m: nat, e: Entry) returns (n': Node)
    requires IsInner(n) && depth <= |key| == KEY_LENGTH && WellFormed(n, key[..depth]) && e.key == key
    requires m < |n.prefix| && depth + m < |key| && key[depth..depth + m] == n.prefix[..m]
             && key[depth + m] != n.prefix[m]
    ensures WellFormed(n', key[..depth]) && IsInsert(Entries(n), Entries(n'), e)
  {
    hide WellFormed, Entries, Child;
    ghost var path := key[..depth];
    InnerBounds(n, path);
    Extends(key, depth, n.prefix[..m]);
    Regrouped(path, n.prefix, m);
    Rebase(n, path, path + n.prefix[..m] + [n.prefix[m]], n.prefix[m + 1..]);
    var rest := WithPrefix(n, n.prefix[m + 1..]);
    NotNull(rest, path + n.prefix[..m] + [n.prefix[m]]);
    NewLeaf(e, path + n.prefix[..m] + [key[depth + m]]);
    n' := Fork(path, n.prefix[..m], n.prefix[m], rest, key[depth + m], e);
  }

  method InsertAt(n: Node, key: Key, depth: nat, e: Entry) returns (n': Node)
    requires depth <= |key| == KEY_LENGTH && WellFormed(n, key[..depth]) && e.key == key && NoKey(Entries(n), key)
    ensures WellFormed(n', key[..depth]) && IsInsert(Entries(n), Entries(n'), e)
    decreases n, 1
  {
    hide Child, Range, WellFormed, Entries, Layout, IsInsert, NoKey;
    if n.Leaf? {
      LeafDiffers(n, key);
      n' := SplitLeaf(n, key, depth, e);
      return;
    }
    InnerBounds(n, key[..depth]);
    var m := PrefixMismatch(n, key, depth);
    if m != |n.prefix| {
      n' := SplitPrefix(n, key, depth, m, e);
    } else {
      n' := InsertBelow(n, key, depth, e);
    }
  }

  /** The key follows the whole prefix of `n`. */
  method InsertBelow(n: Node, key: Key, depth: nat, e: Entry) returns (n': Node)
    requires depth <= |key| == KEY_LENGTH && IsInner(n) && WellFormed(n, key[..depth]) && e.key == key
             && NoKey(Entries(n), key)
    requires depth + |n.prefix| <= |key| && key[depth..depth + |n.prefix|] == n.prefix
    ensures WellFormed(n', key[..depth]) && IsInsert(Entries(n), Entries(n'), e)
    decreases n, 0
  {
    hide Child, Range, WellFormed, Entries, Layout, IsInsert, NoKey;
    var d := depth + |n.prefix|;
    Down(n, n, key, depth);
    Extends(key, depth, n.prefix);
    var b, c := key[d], Child(n, key[d]);
    if c != Null {
      SmallerChild(n, b);
      NoKeyBelow(n, b, key);
      var c' := InsertAt(c, key, d + 1, e);
      n' := PutBack(n, key[..depth], b, c', e);
    } else {
      n' := PutLeaf(n, key[..depth], b, e);
    }
  }

  lemma Extends(key: Key, depth: nat, prefix: Key)
    requires depth + |prefix| < |key| && key[depth..depth + |prefix|] == prefix
    ensures var d := depth + |prefix|;
            key[..depth] + prefix == key[..d] && key[..depth] + prefix + [key[d]] == key[..d + 1]
  {
  }

  lemma Regrouped(path: Key, prefix: Key, m: nat)
    requires m < |prefix|
    ensures (path + prefix[..m] + [prefix[m]]) + prefix[m + 1..] == path + prefix
  {
  }

  lemma LeafDiffers(leaf: Node, key: Key)
    requires leaf.Leaf? && NoKey(Entries(leaf), key)
    ensures leaf.entry.key != key
  {
    assert leaf.entry in Entries(leaf);
  }

  /** The changed child goes back to its place. */
  method PutBack(n: Node, ghost path: Key, b: Byte, c: Node, ghost e: Entry) returns (n': Node)
    requires IsInner(n) && WellFormed(n, path) && Child(n, b) != Null
    requires WellFormed(c, path + n.prefix + [b]) && IsInsert(Entries(Child(n, b)), Entries(c), e)
    ensures WellFormed(n', path) && IsInsert(Entries(n), Entries(n'), e)
  {
    hide Child, Range, WellFormed, Entries, Layout, IsInsert;
    KidsOf(n, path);
    NotNull(c, path + n.prefix + [b]);
    ReplacedOk(n, b, c);
    n' := Replaced(n, b, c);
    KidsPut(n, n', path + n.prefix, b, c);
    ReplacedEntries(n, n', b, c, e);
    KidsOf(n', path);
  }

  /** A new leaf below a node that has no child at its byte. */
  method PutLeaf(n: Node, ghost path: Key, b: Byte, e: Entry) returns (n': Node)
    requires IsInner(n) && WellFormed(n, path) && Child(n, b) == Null && |e.key| == KEY_LENGTH
             && path + n.prefix + [b] <= e.key
    ensures WellFormed(n', path) && IsInsert(Entries(n), Entries(n'), e)
  {
    hide Child, Range, WellFormed, Entries, Layout, IsInsert;
    KidsOf(n, path);
    NewLeaf(e, path + n.prefix + [b]);
    n' := InsertChild(n, b, Leaf(e));
    KidsPut(n, n', path + n.prefix, b, Leaf(e));
    AddedEntries(n, n', b, e);
    KidsOf(n', path);
  }

  lemma InnerBounds(n: Node, path: Key)
    requires WellFormed(n, path) && !n.Leaf?
    ensures IsInner(n) && Layout(n) && Sized(n) && |path| + |n.prefix| < KEY_LENGTH
  {
  }

  lemma NotNull(n: Node, path: Key)
    requires WellFormed(n, path)
    ensures n != Null
  {
  }

  lemma NewLeaf(e: Entry, path: Key)
    requires |e.key| == KEY_LENGTH && path <= e.key
    ensures WellFormed(Leaf(e), path)
  {
  }

  lemma NoKeyBelow(n: Node, b: Byte, key: Key)
    requires IsInner(n) && NoKey(Entries(n), key)
    ensures NoKey(Entries(Child(n, b)), key)
  {
    hide Child, Entries;
    forall e: Entry | e in Entries(Child(n, b)) ensures e.key != key {
      ChildEntry(n, b, e);
    }
  }

  // ---------------------------------------------------------------------------------------
  // Deletion
  // ---------------------------------------------------------------------------------------

  lemma RemovedEntries(n: Node, n': Node, b: Byte, c: Node, key: Key)
    requires IsInner(n) && IsInner(n') && Differs(n, n', b, c) && IsRemove(Entries(Child(n, b)), Entries(c), key)
    ensures IsRemove(Entries(n), Entries(n'), key)
  {
    hide Child, Range, IsRemove;
    EntriesAround(n, b);
    DiffersEntries(n, n', b, c);
    RemoveAround(Range(n, 0, b), Entries(Child(n, b)), Entries(c), Range(n, b + 1, 256), key);
  }

  lemma LeafGone(e: Entry)
    ensures Entries(Null) == [] && IsRemove(Entries(Leaf(e)), Entries(Null), e.key)
  {
    var s := Entries(Leaf(e));
    assert s[0].key == e.key && s[..0] + s[1..] == [];
  }

  lemma {:induction false} RangeOnly(n: Node, lo: nat, hi: nat, x: Byte)
    requires hi <= 256 && forall b: Byte :: lo <= b < hi && b != x ==> Child(n, b) == Null
    ensures Range(n, lo, hi) == if lo <= x < hi then Entries(Child(n, x)) else []
    decreases hi - lo
  {
    if lo < hi {
      var b: Byte := lo;
      RangeOnly(n, lo + 1, hi, x);
      assert b != x ==> Child(n, b) == Null;
    }
  }

  /** With two children, taking out the leaf at `b` leaves the entries of the other. */
  lemma OtherChildLeft(n: Node, b: Byte, only: Byte, e: Entry)
    requires IsInner(n) && Child(n, b) == Leaf(e) && only != b
    requires forall x: Byte :: Child(n, x) != Null ==> x == b || x == only
    ensures IsRemove(Entries(n), Entries(Child(n, only)), e.key)
  {
    hide Child, Entries, Range, IsRemove;
    EntriesAround(n, b);
    OthersHold(n, b, only);
    LeafGone(e);
    RemoveAround(Range(n, 0, b), Entries(Leaf(e)), Entries(Null), Range(n, b + 1, 256), e.key);
    assert Range(n, 0, b) + Entries(Null) + Range(n, b + 1, 256) == Entries(Child(n, only));
  }

  lemma OthersHold(n: Node, b: Byte, only: Byte)
    requires only != b && forall x: Byte :: Child(n, x) != Null ==> x == b || x == only
    ensures Range(n, 0, b) + Range(n, b + 1, 256) == Entries(Child(n, only))
  {
    hide Child, Entries, Range;
    RangeOnly(n, 0, b, only);
    RangeOnly(n, b + 1, 256, only);
  }

  lemma DissolvedOk(n: Node, path: Key, only: Byte)
    requires IsInner(n) && WellFormed(n, path) && Child(n, only) != Null
    ensures var c := Child(n, only);
            WellFormed(Dissolved(n, only, c), path) && Entries(Dissolved(n, only, c)) == Entries(c)
  {
    hide Child;
    var c := Child(n, only);
    var below := path + n.prefix + [only];
    assert WellFormed(c, below);
    if IsInner(c) {
      assert path + (n.prefix + [only] + c.prefix) == below + c.prefix;
      Rebase(c, below, path, n.prefix + [only] + c.prefix);
    } else {
      assert path <= below;
    }
  }

  /** The matching leaf at byte `b` is removed from its parent. */
  method RemoveLeaf(n: Node, ghost path: Key, b: Byte, ghost e: Entry) returns (n': Node)
    requires IsInner(n) && WellFormed(n, path) && Child(n, b) == Leaf(e)
    ensures WellFormed(n', path) && IsRemove(Entries(n), Entries(n'), e.key)
  {
    hide Child, Range, WellFormed, Entries, Layout, IsRemove;
    KidsOf(n, path);
    ghost var only;
    n', only := EraseChild(n, b);
    if Count(n) > 2 {
      KidsPut(n, n', path + n.prefix, b, Null);
      KidsOf(n', path);
      LeafGone(e);
      RemovedEntries(n, n', b, Null, e.key);
    } else {
      OtherChildLeft(n, b, only, e);
      DissolvedOk(n, path, only);
    }
  }

  /** The changed child goes back to its place. */
  method PutBackErased(n: Node, ghost path: Key, b: Byte, c: Node, ghost key: Key) returns (n': Node)
    requires IsInner(n) && WellFormed(n, path) && Child(n, b) != Null
    requires WellFormed(c, path + n.prefix + [b]) && IsRemove(Entries(Child(n, b)), Entries(c), key)
    ensures WellFormed(n', path) && IsRemove(Entries(n), Entries(n'), key)
  {
    hide Child, Range, WellFormed, Entries, Layout, IsRemove;
    KidsOf(n, path);
    NotNull(c, path + n.prefix + [b]);
    ReplacedOk(n, b, c);
    n' := Replaced(n, b, c);
    KidsPut(n, n', path + n.prefix, b, c);
    RemovedEntries(n, n', b, c, key);
    KidsOf(n', path);
  }

  ghost predicate Erased(n: Node, path: Key, key: Key, n': Node, removed: bool) {
    && (removed ==> IsRemove(Entries(n), Entries(n'), key)) && (!removed ==> n' == n && NoKey(Entries(n), key))
    && (if n' == Null then n == Null || n.Leaf? else WellFormed(n', path))
  }

  method EraseAt(n: Node, key: Key, depth: nat) returns (n': Node, removed: bool)
    requires depth <= |key| == KEY_LENGTH && (n == Null || WellFormed(n, key[..depth]))
    ensures Erased(n, key[..depth], key, n', removed)
    decreases n, 1
  {
    n', removed := n, false;
    if n == Null {
      return;
    }
    if n.Leaf? {
      assert key[..depth] == n.entry.key[..depth];
      var ok := LeafMatches(n, key, depth);
      if ok {
        LeafGone(n.entry);
        n', removed := Null, true;
      }
      return;
    }
    hide Child, Range, WellFormed, Entries, Layout, IsRemove, Erased;
    InnerBounds(n, key[..depth]);
    var m := PrefixMismatch(n, key, depth);
    if m != |n.prefix| {
      Mismatch(n, n, key, depth, m);
      Untouched(n, key[..depth], key);
    } else {
      n', removed := EraseBelow(n, key, depth);
    }
  }

  lemma Untouched(n: Node, path: Key, key: Key)
    requires WellFormed(n, path) && IsAnswer(n, key, Null)
    ensures Erased(n, path, key, n, false)
  {
  }

  /** The key follows the whole prefix of `n`. */
  method EraseBelow(n: Node, key: Key, depth: nat) returns (n': Node, removed: bool)
    requires depth <= |key| == KEY_LENGTH && IsInner(n) && WellFormed(n, key[..depth])
    requires depth + |n.prefix| <= |key| && key[depth..depth + |n.prefix|] == n.prefix
    ensures Erased(n, key[..depth], key, n', removed)
    decreases n, 0
  {
    hide Child, Range, WellFormed, Entries, Layout, IsRemove, Erased;
    n', removed := n, false;
    var d := depth + |n.prefix|;
    Down(n, n, key, depth);
    Extends(key, depth, n.prefix);
    var b, c := key[d], Child(n, key[d]);
    if c == Null {
      NothingThere(n, key);
      Untouched(n, key[..depth], key);
      return;
    }
    SmallerChild(n, b);
    if c.Leaf? {
      LeafPath(c, key, d);
      var ok := LeafMatches(c, key, d);
      if ok {
        n' := RemoveLeaf(n, key[..depth], b, c.entry);
        removed := true;
        ErasedYes(n, key[..depth], key, n');
        return;
      }
    }
    var c';
    c', removed := EraseAt(c, key, d + 1);
    if removed {
      StillThere(c, key, d + 1, c');
      n' := PutBackErased(n, key[..depth], b, c', key);
      ErasedYes(n, key[..depth], key, n');
    } else {
      NotBelow(n, key, d, c');
      Untouched(n, key[..depth], key);
    }
  }

  lemma ErasedYes(n: Node, path: Key, key: Key, n': Node)
    requires WellFormed(n', path) && IsRemove(Entries(n), Entries(n'), key)
    ensures Erased(n, path, key, n', true)
  {
  }

  lemma LeafPath(leaf: Node, key: Key, d: nat)
    requires leaf.Leaf? && d < |key| == KEY_LENGTH && WellFormed(leaf, key[..d + 1])
    ensures |leaf.entry.key| == |key| && leaf.entry.key[..d] == key[..d]
  {
    var k := leaf.entry.key;
    assert k[..d + 1] == key[..d + 1];
    assert k[..d] == k[..d + 1][..d] && key[..d] == key[..d + 1][..d];
  }

  /** Erasing below a child that is not the matching leaf leaves a child. */
  lemma StillThere(c: Node, key: Key, depth: nat, c': Node)
    requires depth <= |key| && c != Null && Erased(c, key[..depth], key, c', true) && (c.Leaf? ==> c.entry.key != key)
    ensures WellFormed(c', key[..depth]) && IsRemove(Entries(c), Entries(c'), key)
  {
  }

  lemma NotBelow(n: Node, key: Key, d: nat, c: Node)
    requires d < |key| && SameAnswer(n, Child(n, key[d]), key) && Erased(Child(n, key[d]), key[..d + 1], key, c, false)
    ensures IsAnswer(n, key, Null)
  {
    hide Child;
  }

  lemma FirstEntry(e: Entry)
    ensures IsInsert(Entries(Null), Entries(Leaf(e)), e)
  {
    var s := Entries(Null);
    assert Entries(Leaf(e)) == s[..0] + [e] + s[0..];
  }

  // ---------------------------------------------------------------------------------------
  // The index
  // ---------------------------------------------------------------------------------------

  class Art {
    var root: Node
    var numItems: nat

    ghost function Model(): (s: seq<Entry>)
      reads this
    {
      Entries(root)
    }

    ghost predicate Valid()
      reads this
    {
      (root == Null || WellFormed(root, [])) && numItems == |Model()|
    }

    constructor ()
      ensures Valid() && Model() == []
    {
      root, numItems := Null, 0;
    }

    /** Adds an absent key. */
    method Insert(key: Key, value: nat)
      requires Valid() && |key| == KEY_LENGTH && NoKey(Model(), key)
      modifies this
      ensures Valid() && IsInsert(old(Model()), Model(), Entry(key, value))
    {
      var e := Entry(key, value);
      assert key[..0] == [];
      if root == Null {
        root := Leaf(e);
        FirstEntry(e);
      } else {
        root := InsertAt(root, key, 0, e);
      }
      numItems := numItems + 1;
    }

    /** Takes the key out if it is there. */
    method Erase(key: Key) returns (removed: bool)
      requires Valid() && |key| == KEY_LENGTH
      modifies this
      ensures Valid()
      ensures removed ==> IsRemove(old(Model()), Model(), key)
      ensures !removed ==> Model() == old(Model()) && NoKey(Model(), key)
    {
      assert key[..0] == [];
      var n;
      n, removed := EraseAt(root, key, 0);
      root := n;
      if removed {
        numItems := numItems - 1;
      }
    }

    /** Both searches answer from the stored entries. */
    method Find(key: Key, optimistic: bool) returns (found: bool, value: nat)
      requires Valid() && |key| == KEY_LENGTH
      ensures found <==> !NoKey(Model(), key)
      ensures found ==> Entry(key, value) in Model()
    {
      var r;
      if optimistic {
        r := Lookup(root, key);
      } else {
        r := LookupPessimistic(root, key);
      }
      found, value := r.Leaf?, if r.Leaf? then r.entry.value else 0;
    }
  }
}
