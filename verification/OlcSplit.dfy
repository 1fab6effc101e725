/**
 The writes of the optimistic B+tree keep the shared tree well formed, and do to the abstract
 map exactly what they should: a leaf insertion adds one absent key, a page split changes nothing.
 */
module OlcSplit {
  import opened Options
  import opened OlcNodes
  import opened OlcTree

  /** The abstract effect of inserting `k`: nothing if the key is bound, one new binding otherwise. */
  ghost predicate Adds(sh: Shared, sh': Shared, k: int, v: Value) {
    forall q {:trigger Get(sh', q)} :: Get(sh', q) == if q == k && Get(sh, k).None? then Some(v) else Get(sh, q)
  }

  /** The abstract effect of removing `k`. */
  ghost predicate Removes(sh: Shared, sh': Shared, k: int) {
    forall q {:trigger Get(sh', q)} :: Get(sh', q) == if q == k then None else Get(sh, q)
  }

  ghost predicate SameMap(sh: Shared, sh': Shared) {
    forall q {:trigger Get(sh', q)} :: Get(sh', q) == Get(sh, q)
  }

  // ---------------------------------------------------------------------------------------
  // Changes that keep every range and every child pointer
  // ---------------------------------------------------------------------------------------

  /** Two trees with the same pages up to lock words and leaf contents. */
  ghost predicate SameShape(sh: Shared, sh': Shared) {
    && sh'.root == sh.root && sh'.leafMax == sh.leafMax && sh'.innerMax == sh.innerMax
    && sh'.nodes.Keys == sh.nodes.Keys
    && forall id :: id in sh.nodes ==>
         var n, n' := sh.nodes[id], sh'.nodes[id];
         n'.lo == n.lo && n'.hi == n.hi && n'.Leaf? == n.Leaf?
         && (n.Inner? ==> n'.keys == n.keys && n'.kids == n.kids)
  }

  lemma ShapeKeepsTree(sh: Shared, sh': Shared)
    requires TreeInv(sh) && SameShape(sh, sh') && PagesOk(sh')
    ensures TreeInv(sh')
    ensures forall id, k :: LeafFor(sh', id, k) <==> LeafFor(sh, id, k)
  {
    forall m, i | m in sh'.nodes && sh'.nodes[m].Inner? && |sh'.nodes[m].kids| == |sh'.nodes[m].keys| + 1
      && 0 <= i < |sh'.nodes[m].kids|
      ensures SlotOk(sh', m, i)
    {
      assert SlotOk(sh, m, i);
    }
    forall id, k ensures LeafFor(sh', id, k) <==> LeafFor(sh, id, k) {
    }
  }

  lemma BumpOk(sh: Shared, id: nat)
    requires TreeInv(sh) && id in sh.nodes
    ensures TreeInv(Bump(sh, id)) && SameMap(sh, Bump(sh, id))
  {
    var sh' := Bump(sh, id);
    BumpShape(sh, id);
    ShapeKeepsTree(sh, sh');
    hide TreeInv, PageOk;
    forall q ensures Get(sh', q) == Get(sh, q) {
      if a :| LeafFor(sh, a, q) {
        GetIs(sh, a, q);
        GetIs(sh', a, q);
      }
    }
  }

  lemma BumpShape(sh: Shared, id: nat)
    requires PagesOk(sh) && id in sh.nodes
    ensures SameShape(sh, Bump(sh, id)) && PagesOk(Bump(sh, id))
  {
    var n := sh.nodes[id];
    assert PageOk(n.(word := n.word + 1));
    hide PageOk;
  }

  lemma PutInLeafOk(sh: Shared, node: nat, k: int, v: Value)
    requires TreeInv(sh) && LeafFor(sh, node, k) && |sh.nodes[node].keys| < sh.leafMax
    ensures var sh' := PutInLeaf(sh, node, k, v);
            TreeInv(sh') && Adds(sh, sh', k, v)
  {
    var sh' := PutInLeaf(sh, node, k, v);
    LeafPutOk(sh.nodes[node], k, v);
    ShapeKeepsTree(sh, sh');
    GetIs(sh, node, k);
    forall q ensures Get(sh', q) == if q == k && Get(sh, k).None? then Some(v) else Get(sh, q) {
      PutGet(sh, node, k, v, q);
    }
  }

  lemma PutGet(sh: Shared, node: nat, k: int, v: Value, q: int)
    requires TreeInv(sh) && LeafFor(sh, node, k) && TreeInv(PutInLeaf(sh, node, k, v))
    requires forall id, x :: LeafFor(PutInLeaf(sh, node, k, v), id, x) <==> LeafFor(sh, id, x)
    ensures Get(PutInLeaf(sh, node, k, v), q)
         == if q == k && LeafGet(sh.nodes[node], k).None? then Some(v) else Get(sh, q)
  {
    var sh' := PutInLeaf(sh, node, k, v);
    LeafPutGet(sh.nodes[node], k, v, q);
    hide LeafPut, LeafGet, PageOk;
    if a :| LeafFor(sh, a, q) {
      GetIs(sh, a, q);
      GetIs(sh', a, q);
      assert a != node ==> q != k;
    } else {
      assert !LeafFor(sh, node, q);
    }
  }

  lemma CutFromLeafOk(sh: Shared, node: nat, k: int)
    requires TreeInv(sh) && LeafFor(sh, node, k)
    ensures var sh' := CutFromLeaf(sh, node, k);
            TreeInv(sh') && Removes(sh, sh', k)
  {
    var sh' := CutFromLeaf(sh, node, k);
    LeafCutOk(sh.nodes[node], k);
    ShapeKeepsTree(sh, sh');
    forall q ensures Get(sh', q) == if q == k then None else Get(sh, q) {
      LeafCutGet(sh.nodes[node], k, q);
      if a :| LeafFor(sh, a, q) {
        GetIs(sh, a, q);
        GetIs(sh', a, q);
      } else {
        assert !LeafFor(sh, node, q);
      }
    }
  }

  // ---------------------------------------------------------------------------------------
  // Splitting a page whose parent has room
  // ---------------------------------------------------------------------------------------

  /** `left` and `right` take over `n`'s range, cut at `sep`, and between them its children. */
  ghost predicate Cut(n: Node, s: Split) {
    && s.left.lo == n.lo && s.left.hi == Fin(s.sep)
    && s.right.lo == Fin(s.sep) && s.right.hi == n.hi
    && Covers(n, s.sep) && n.hi != Fin(s.sep)
    && PageOk(s.left) && PageOk(s.right)
    && s.left.Leaf? == n.Leaf? && s.right.Leaf? == n.Leaf?
    && (n.Inner? ==> s.left.keys + [s.sep] + s.right.keys == n.keys && s.left.kids + s.right.kids == n.kids)
  }

  lemma SplitForOk(n: Node, op: Op)
    requires PageOk(n) && 2 <= |n.keys|
    requires op.InsertOp? && (n.Leaf? ==> Covers(n, op.key))
    ensures var s := SplitFor(n, op);
            && Cut(n, s) && s.left.word == n.word
            && |s.left.keys| <= |n.keys| && |s.right.keys| <= |n.keys|
  {
    SplitOk(n);
    var s := SplitNode(n);
    if n.Leaf? {
      if op.key > s.sep {
        LeafPutOk(s.right, op.key, op.val);
      } else {
        LeafPutOk(s.left, op.key, op.val);
      }
    }
  }

  // `node` is child `j` of `pid`, which has room; `nid` is fresh.
  ghost predicate CanLink(sh: Shared, pid: nat, j: nat, node: nat, nid: nat, s: Split) {
    && TreeInv(sh)
    && pid in sh.nodes && sh.nodes[pid].Inner? && |sh.nodes[pid].keys| < sh.innerMax - 1
    && j < |sh.nodes[pid].kids| && sh.nodes[pid].kids[j] == node
    && node in sh.nodes && node != pid && nid !in sh.nodes
    && Cut(sh.nodes[node], s)
    && |s.left.keys| <= |sh.nodes[node].keys| && |s.right.keys| <= |sh.nodes[node].keys|
  }

  function LinkSplit(sh: Shared, pid: nat, node: nat, nid: nat, s: Split): (r: Shared)
    requires pid in sh.nodes && sh.nodes[pid].Inner? && PageOk(sh.nodes[pid])
  {
    sh.(nodes := sh.nodes[node := s.left][nid := s.right][pid := InnerPut(sh.nodes[pid], s.sep, nid)])
  }

  lemma LinkAt(sh: Shared, pid: nat, j: nat, node: nat, nid: nat, s: Split)
    requires CanLink(sh, pid, j, node, nid, s)
    ensures var p := sh.nodes[pid];
            && PageOk(p) && LowerBound(p.keys, s.sep) == j && PageOk(InnerPut(p, s.sep, nid))
            && InnerPut(p, s.sep, nid) == p.(keys := InsertAt(p.keys, j, s.sep), kids := InsertAt(p.kids, j + 1, nid))
  {
    var p := sh.nodes[pid];
    assert SlotOk(sh, pid, j);
    assert j < |p.keys| ==> Covers(p, p.keys[j]);
    assert j > 0 ==> Covers(p, p.keys[j - 1]);
    InnerPutAt(p, s.sep, nid, j);
  }

  lemma LinkPages(sh: Shared, pid: nat, j: nat, node: nat, nid: nat, s: Split)
    requires CanLink(sh, pid, j, node, nid, s)
    ensures PagesOk(LinkSplit(sh, pid, node, nid, s))
  {
    LinkAt(sh, pid, j, node, nid, s);
  }

  /** Where the child in slot `i` of page `m` was before the split. */
  ghost function Before(sh: Shared, pid: nat, j: nat, node: nat, nid: nat, s: Split, m: nat, i: nat): (nat, nat)
  {
    if m == pid then (pid, if i <= j then i else if i == 0 then 0 else i - 1)
    else if m == nid && s.left.Inner? then (node, i + |s.left.kids|)
    else (m, i)
  }

  lemma BeforeIs(sh: Shared, pid: nat, j: nat, node: nat, nid: nat, s: Split, m: nat, i: nat)
    requires CanLink(sh, pid, j, node, nid, s)
    requires var sh' := LinkSplit(sh, pid, node, nid, s);
             && m in sh'.nodes && sh'.nodes[m].Inner? && i < |sh'.nodes[m].kids|
             && !(m == pid && i == j + 1)
    ensures var sh' := LinkSplit(sh, pid, node, nid, s);
            var (m0, i0) := Before(sh, pid, j, node, nid, s, m, i);
            && m0 in sh.nodes && sh.nodes[m0].Inner? && i0 < |sh.nodes[m0].kids|
            && sh.nodes[m0].kids[i0] == sh'.nodes[m].kids[i]
  {
    LinkAt(sh, pid, j, node, nid, s);
  }

  lemma LinkOneParent(sh: Shared, pid: nat, j: nat, node: nat, nid: nat, s: Split)
    requires CanLink(sh, pid, j, node, nid, s)
    ensures OneParent(LinkSplit(sh, pid, node, nid, s))
  {
    var sh' := LinkSplit(sh, pid, node, nid, s);
    LinkAt(sh, pid, j, node, nid, s);
    forall m, i | m in sh'.nodes && sh'.nodes[m].Inner? && 0 <= i < |sh'.nodes[m].kids|
      ensures sh'.nodes[m].kids[i] != sh'.root
      ensures !(m == pid && i == j + 1) ==> sh'.nodes[m].kids[i] in sh.nodes
    {
      if !(m == pid && i == j + 1) {
        BeforeIs(sh, pid, j, node, nid, s, m, i);
        var (m0, i0) := Before(sh, pid, j, node, nid, s, m, i);
        assert SlotOk(sh, m0, i0);
      }
    }
    hide Before;
    forall m, i, m', i' | && m in sh'.nodes && sh'.nodes[m].Inner? && 0 <= i < |sh'.nodes[m].kids|
                          && m' in sh'.nodes && sh'.nodes[m'].Inner? && 0 <= i' < |sh'.nodes[m'].kids|
                          && sh'.nodes[m].kids[i] == sh'.nodes[m'].kids[i']
      ensures m == m' && i == i'
    {
      if !(m == pid && i == j + 1) && !(m' == pid && i' == j + 1) {
        SameSlot(sh, pid, j, node, nid, s, m, i, m', i');
      }
    }
  }

  lemma SameSlot(sh: Shared, pid: nat, j: nat, node: nat, nid: nat, s: Split, m: nat, i: nat, m': nat, i': nat)
    requires CanLink(sh, pid, j, node, nid, s) && PageOk(sh.nodes[pid])
    requires var sh' := LinkSplit(sh, pid, node, nid, s);
             && m in sh'.nodes && sh'.nodes[m].Inner? && i < |sh'.nodes[m].kids| && !(m == pid && i == j + 1)
             && m' in sh'.nodes && sh'.nodes[m'].Inner? && i' < |sh'.nodes[m'].kids| && !(m' == pid && i' == j + 1)
             && sh'.nodes[m].kids[i] == sh'.nodes[m'].kids[i']
    ensures m == m' && i == i'
  {
    BeforeIs(sh, pid, j, node, nid, s, m, i);
    BeforeIs(sh, pid, j, node, nid, s, m', i');
    var (m0, i0) := Before(sh, pid, j, node, nid, s, m, i);
    var (m1, i1) := Before(sh, pid, j, node, nid, s, m', i');
    assert m0 == m1 && i0 == i1;
  }

  lemma ParentBounds(p: Node, j: nat, sep: int, kids: seq<nat>, i: nat)
    requires p.Inner? && j <= |p.keys| && i <= |p.keys| + 1 && i != j && i != j + 1
    ensures var p' := p.(keys := InsertAt(p.keys, j, sep), kids := kids);
            var i0 := if i < j then i else i - 1;
            i0 <= |p.keys| && i <= |p'.keys| && SlotLo(p', i) == SlotLo(p, i0) && SlotHi(p', i) == SlotHi(p, i0)
  {
  }

  lemma LeftBounds(n: Node, l: Node, sep: int, keys: seq<int>, i: nat)
    requires n.Inner? && l.Inner? && n.keys == l.keys + [sep] + keys && l.lo == n.lo && l.hi == Fin(sep)
             && i <= |l.keys|
    ensures SlotLo(l, i) == SlotLo(n, i) && SlotHi(l, i) == SlotHi(n, i)
  {
  }

  lemma RightBounds(n: Node, keys: seq<int>, sep: int, r: Node, i: nat)
    requires n.Inner? && r.Inner? && n.keys == keys + [sep] + r.keys && r.lo == Fin(sep) && r.hi == n.hi
             && i <= |r.keys|
    ensures var i0 := i + |keys| + 1; SlotLo(r, i) == SlotLo(n, i0) && SlotHi(r, i) == SlotHi(n, i0)
  {
  }

  /** Apart from the slot that was cut, a slot keeps its bounds. */
  lemma BoundsBefore(sh: Shared, pid: nat, j: nat, node: nat, nid: nat, s: Split, m: nat, i: nat)
    requires CanLink(sh, pid, j, node, nid, s)
    requires var sh' := LinkSplit(sh, pid, node, nid, s);
             && m in sh'.nodes && sh'.nodes[m].Inner? && i < |sh'.nodes[m].kids|
             && !(m == pid && (i == j || i == j + 1))
    ensures var sh' := LinkSplit(sh, pid, node, nid, s);
            var (m0, i0) := Before(sh, pid, j, node, nid, s, m, i);
            && m0 in sh.nodes && sh.nodes[m0].Inner? && i0 <= |sh.nodes[m0].keys|
            && i <= |sh'.nodes[m].keys|
            && SlotLo(sh'.nodes[m], i) == SlotLo(sh.nodes[m0], i0)
            && SlotHi(sh'.nodes[m], i) == SlotHi(sh.nodes[m0], i0)
  {
    LinkAt(sh, pid, j, node, nid, s);
    if m == pid {
      ParentBounds(sh.nodes[pid], j, s.sep, InsertAt(sh.nodes[pid].kids, j + 1, nid), i);
    } else if m == node {
      LeftBounds(sh.nodes[node], s.left, s.sep, s.right.keys, i);
    } else if m == nid {
      RightBounds(sh.nodes[node], s.left.keys, s.sep, s.right, i);
    } else {
      assert PageOk(sh.nodes[m]);
    }
  }

  lemma LinkKids(sh: Shared, pid: nat, j: nat, node: nat, nid: nat, s: Split)
    requires CanLink(sh, pid, j, node, nid, s)
    ensures KidsOk(LinkSplit(sh, pid, node, nid, s))
  {
    var sh' := LinkSplit(sh, pid, node, nid, s);
    LinkAt(sh, pid, j, node, nid, s);
    forall m, i | m in sh'.nodes && sh'.nodes[m].Inner? && |sh'.nodes[m].kids| == |sh'.nodes[m].keys| + 1
      && 0 <= i < |sh'.nodes[m].kids|
      ensures SlotOk(sh', m, i)
    {
      if m == pid && (i == j || i == j + 1) {
        assert SlotOk(sh, pid, j);
      } else {
        BeforeIs(sh, pid, j, node, nid, s, m, i);
        BoundsBefore(sh, pid, j, node, nid, s, m, i);
        var (m0, i0) := Before(sh, pid, j, node, nid, s, m, i);
        assert SlotOk(sh, m0, i0);
        KidElsewhere(sh, pid, j, node, nid, s, m0, i0);
      }
    }
  }

  lemma KidElsewhere(sh: Shared, pid: nat, j: nat, node: nat, nid: nat, s: Split, m: nat, i: nat)
    requires CanLink(sh, pid, j, node, nid, s)
    requires m in sh.nodes && sh.nodes[m].Inner? && i < |sh.nodes[m].kids| && !(m == pid && i == j)
    ensures var sh' := LinkSplit(sh, pid, node, nid, s);
            var kid := sh.nodes[m].kids[i];
            kid in sh.nodes && kid in sh'.nodes
            && sh'.nodes[kid].lo == sh.nodes[kid].lo && sh'.nodes[kid].hi == sh.nodes[kid].hi
  {
    assert SlotOk(sh, m, i);
    assert sh.nodes[m].kids[i] != node;
  }

  lemma LinkLeaves(sh: Shared, pid: nat, j: nat, node: nat, nid: nat, s: Split)
    requires CanLink(sh, pid, j, node, nid, s)
    ensures var sh' := LinkSplit(sh, pid, node, nid, s);
            && LeavesApart(sh')
            && forall a, q :: LeafFor(sh', a, q) ==>
                 LeafFor(sh, if a == nid then node else a, q)
                 && (a == node ==> q <= s.sep) && (a == nid ==> s.sep < q)
  {
    var sh' := LinkSplit(sh, pid, node, nid, s);
    forall a, q | LeafFor(sh', a, q)
      ensures LeafFor(sh, if a == nid then node else a, q)
      ensures (a == node ==> q <= s.sep) && (a == nid ==> s.sep < q)
    {
      assert a != pid;
    }
  }

  lemma LinkOk(sh: Shared, pid: nat, j: nat, node: nat, nid: nat, s: Split)
    requires CanLink(sh, pid, j, node, nid, s)
    ensures TreeInv(LinkSplit(sh, pid, node, nid, s))
  {
    LinkPages(sh, pid, j, node, nid, s);
    LinkKids(sh, pid, j, node, nid, s);
    LinkOneParent(sh, pid, j, node, nid, s);
    LinkLeaves(sh, pid, j, node, nid, s);
    LinkAt(sh, pid, j, node, nid, s);
  }

  // ---------------------------------------------------------------------------------------
  // What a split does to the abstract map
  // ---------------------------------------------------------------------------------------

  lemma SplitForGet(n: Node, op: Op, q: int)
    requires n.Leaf? && PageOk(n) && 2 <= |n.keys| && op.InsertOp? && Covers(n, op.key) && Covers(n, q)
    ensures var s := SplitFor(n, op);
            var side := if q <= s.sep then s.left else s.right;
            && side.Leaf? && PageOk(side)
            && LeafGet(side, q) == if q == op.key && LeafGet(n, op.key).None? then Some(op.val) else LeafGet(n, q)
  {
    var s := SplitNode(n);
    SplitOk(n);
    SplitForOk(n, op);
    SplitLeafGet(n, s, q);
    SplitLeafGet(n, s, op.key);
    if op.key > s.sep {
      LeafPutGet(s.right, op.key, op.val, q);
    } else {
      LeafPutGet(s.left, op.key, op.val, q);
    }
  }

  lemma LinkLeafGet(sh: Shared, pid: nat, j: nat, node: nat, nid: nat, op: Op, s: Split, q: int)
    requires node in sh.nodes && sh.nodes[node].Leaf? && PageOk(sh.nodes[node]) && 2 <= |sh.nodes[node].keys|
    requires op.InsertOp? && Covers(sh.nodes[node], op.key)
    requires s == SplitFor(sh.nodes[node], op) && CanLink(sh, pid, j, node, nid, s)
    requires TreeInv(LinkSplit(sh, pid, node, nid, s))
    ensures Get(LinkSplit(sh, pid, node, nid, s), q)
         == if q == op.key && LeafGet(sh.nodes[node], op.key).None? then Some(op.val) else Get(sh, q)
  {
    hide SplitFor, LeafGet, PageOk, InnerPut;
    assert LeafFor(sh, node, op.key);
    if Covers(sh.nodes[node], q) {
      HalvesGet(sh, pid, j, node, nid, op, s, q);
    } else {
      OthersGet(sh, pid, j, node, nid, s, q);
    }
  }

  lemma HalvesGet(sh: Shared, pid: nat, j: nat, node: nat, nid: nat, op: Op, s: Split, q: int)
    requires node in sh.nodes && sh.nodes[node].Leaf? && PageOk(sh.nodes[node]) && 2 <= |sh.nodes[node].keys|
    requires op.InsertOp? && Covers(sh.nodes[node], op.key) && Covers(sh.nodes[node], q)
    requires s == SplitFor(sh.nodes[node], op) && CanLink(sh, pid, j, node, nid, s)
    requires TreeInv(LinkSplit(sh, pid, node, nid, s))
    ensures Get(LinkSplit(sh, pid, node, nid, s), q)
         == if q == op.key && LeafGet(sh.nodes[node], op.key).None? then Some(op.val) else Get(sh, q)
  {
    hide SplitFor, LeafGet, PageOk, InnerPut;
    GetIs(sh, node, q);
    SplitForGet(sh.nodes[node], op, q);
    GetIs(LinkSplit(sh, pid, node, nid, s), if q <= s.sep then node else nid, q);
  }

  lemma OthersGet(sh: Shared, pid: nat, j: nat, node: nat, nid: nat, s: Split, q: int)
    requires CanLink(sh, pid, j, node, nid, s) && TreeInv(LinkSplit(sh, pid, node, nid, s))
    requires sh.nodes[node].Leaf? && !Covers(sh.nodes[node], q)
    ensures Get(LinkSplit(sh, pid, node, nid, s), q) == Get(sh, q)
  {
    hide LeafGet, PageOk, InnerPut;
    if a :| LeafFor(sh, a, q) {
      GetIs(sh, a, q);
      assert LeafFor(LinkSplit(sh, pid, node, nid, s), a, q);
      GetIs(LinkSplit(sh, pid, node, nid, s), a, q);
    } else {
      LinkLeaves(sh, pid, j, node, nid, s);
    }
  }

  lemma LinkLeafAdds(sh: Shared, pid: nat, j: nat, node: nat, nid: nat, op: Op)
    requires node in sh.nodes && sh.nodes[node].Leaf? && PageOk(sh.nodes[node]) && 2 <= |sh.nodes[node].keys|
    requires op.InsertOp? && Covers(sh.nodes[node], op.key)
    requires CanLink(sh, pid, j, node, nid, SplitFor(sh.nodes[node], op))
    ensures Adds(sh, LinkSplit(sh, pid, node, nid, SplitFor(sh.nodes[node], op)), op.key, op.val)
  {
    var s := SplitFor(sh.nodes[node], op);
    LinkOk(sh, pid, j, node, nid, s);
    GetIs(sh, node, op.key);
    forall q ensures Get(LinkSplit(sh, pid, node, nid, s), q)
                  == if q == op.key && Get(sh, op.key).None? then Some(op.val) else Get(sh, q)
    {
      LinkLeafGet(sh, pid, j, node, nid, op, s, q);
    }
  }

  lemma LinkInnerKeeps(sh: Shared, pid: nat, j: nat, node: nat, nid: nat, s: Split)
    requires CanLink(sh, pid, j, node, nid, s) && sh.nodes[node].Inner?
    ensures SameMap(sh, LinkSplit(sh, pid, node, nid, s))
  {
    var sh' := LinkSplit(sh, pid, node, nid, s);
    LinkOk(sh, pid, j, node, nid, s);
    LinkLeaves(sh, pid, j, node, nid, s);
    forall q ensures Get(sh', q) == Get(sh, q) {
      if a :| LeafFor(sh, a, q) {
        assert LeafFor(sh', a, q);
        GetIs(sh, a, q);
        GetIs(sh', a, q);
      } else {
        assert forall a :: LeafFor(sh', a, q) ==> LeafFor(sh, a, q);
      }
    }
  }

  // ---------------------------------------------------------------------------------------
  // A root split is a split under a one-child root put above the old one
  // ---------------------------------------------------------------------------------------

  function AddRoot(sh: Shared, rid: nat): (r: Shared) {
    sh.(nodes := sh.nodes[rid := Inner(FRESH_WORD, NegInf, PosInf, [], [sh.root])], root := rid)
  }

  lemma AddRootOk(sh: Shared, rid: nat)
    requires TreeInv(sh) && rid !in sh.nodes
    ensures TreeInv(AddRoot(sh, rid)) && SameMap(sh, AddRoot(sh, rid))
  {
    var sh' := AddRoot(sh, rid);
    forall m, i | m in sh'.nodes && sh'.nodes[m].Inner? && |sh'.nodes[m].kids| == |sh'.nodes[m].keys| + 1
      && 0 <= i < |sh'.nodes[m].kids|
      ensures SlotOk(sh', m, i)
    {
      if m != rid {
        assert SlotOk(sh, m, i);
      }
    }
    AddRootApart(sh, rid);
    forall q ensures Get(sh', q) == Get(sh, q) {
      if a :| LeafFor(sh, a, q) {
        assert LeafFor(sh', a, q);
        GetIs(sh, a, q);
        GetIs(sh', a, q);
      }
    }
  }

  lemma AddRootApart(sh: Shared, rid: nat)
    requires TreeInv(sh) && rid !in sh.nodes
    ensures LeavesApart(AddRoot(sh, rid)) && OneParent(AddRoot(sh, rid))
    ensures forall a, q :: LeafFor(AddRoot(sh, rid), a, q) <==> LeafFor(sh, a, q)
  {
    var sh' := AddRoot(sh, rid);
    forall a, q ensures LeafFor(sh', a, q) <==> LeafFor(sh, a, q) {
    }
    forall m, i | m in sh.nodes && sh.nodes[m].Inner? && 0 <= i < |sh.nodes[m].kids|
      ensures sh.nodes[m].kids[i] != rid
    {
      assert SlotOk(sh, m, i);
    }
  }

  /** The asserts of the split code: both pages have room for what is put into them. */
  lemma SplitReadyOk(sh: Shared, parent: Link, node: nat, op: Op)
    requires TreeInv(sh) && op.InsertOp?
    requires node in sh.nodes && Full(sh, sh.nodes[node])
    requires LinkLocked(sh, op, parent, node) && (parent.NoParent? ==> sh.root == node)
    ensures PageOk(sh.nodes[node]) && 2 <= |sh.nodes[node].keys|
    ensures sh.nodes[node].Leaf? ==> Covers(sh.nodes[node], op.key)
    ensures parent.Parent? ==>
              && PageOk(sh.nodes[parent.id]) && |sh.nodes[parent.id].keys| < sh.innerMax - 1
              && sh.nodes[parent.id].kids[LowerBound(sh.nodes[parent.id].keys, op.key)] == node
  {
    if parent.Parent? {
      var p := sh.nodes[parent.id];
      assert SlotOk(sh, parent.id, LowerBound(p.keys, op.key));
      RouteCovers(p, op.key);
    }
  }

  /** The split step as a whole: the tree stays well formed; a leaf split inserts, an inner split does nothing. */
  lemma DoSplitOk(sh: Shared, parent: Link, node: nat, op: Op, c: Choice)
    requires TreeInv(sh) && op.InsertOp?
    requires node in sh.nodes && Full(sh, sh.nodes[node])
    requires LinkLocked(sh, op, parent, node) && (parent.NoParent? ==> sh.root == node)
    requires c.id !in sh.nodes && c.id2 !in sh.nodes && c.id != c.id2
    ensures PageOk(sh.nodes[node]) && 2 <= |sh.nodes[node].keys|
    ensures sh.nodes[node].Leaf? ==> Covers(sh.nodes[node], op.key)
    ensures TreeInv(DoSplit(sh, parent, node, op, c))
    ensures sh.nodes[node].Leaf? ==> Adds(sh, DoSplit(sh, parent, node, op, c), op.key, op.val)
    ensures sh.nodes[node].Inner? ==> SameMap(sh, DoSplit(sh, parent, node, op, c))
  {
    SplitReadyOk(sh, parent, node, op);
    match parent {
      case Parent(pid, _) =>
        SplitUnder(sh, pid, LowerBound(sh.nodes[pid].keys, op.key), node, op, c.id);
      case NoParent =>
        AddRootOk(sh, c.id2);
        SplitUnder(AddRoot(sh, c.id2), c.id2, 0, node, op, c.id);
        RootSplitIs(sh, node, op, c);
    }
  }

  lemma SplitUnder(sh: Shared, pid: nat, j: nat, node: nat, op: Op, nid: nat)
    requires TreeInv(sh) && op.InsertOp?
    requires pid in sh.nodes && sh.nodes[pid].Inner? && !Full(sh, sh.nodes[pid])
    requires j < |sh.nodes[pid].kids| && sh.nodes[pid].kids[j] == node && node != pid
    requires node in sh.nodes && 2 <= |sh.nodes[node].keys| && nid !in sh.nodes
    requires sh.nodes[node].Leaf? ==> Covers(sh.nodes[node], op.key)
    ensures var sh' := LinkSplit(sh, pid, node, nid, SplitFor(sh.nodes[node], op));
            && TreeInv(sh')
            && (sh.nodes[node].Leaf? ==> Adds(sh, sh', op.key, op.val))
            && (sh.nodes[node].Inner? ==> SameMap(sh, sh'))
  {
    var s := SplitFor(sh.nodes[node], op);
    SplitForOk(sh.nodes[node], op);
    LinkOk(sh, pid, j, node, nid, s);
    if sh.nodes[node].Leaf? {
      LinkLeafAdds(sh, pid, j, node, nid, op);
    } else {
      LinkInnerKeeps(sh, pid, j, node, nid, s);
    }
  }

  lemma RootSplitIs(sh: Shared, node: nat, op: Op, c: Choice)
    requires TreeInv(sh) && op.InsertOp? && sh.root == node && 2 <= |sh.nodes[node].keys|
    requires c.id !in sh.nodes && c.id2 !in sh.nodes && c.id != c.id2
    ensures PageOk(sh.nodes[node])
    ensures DoSplit(sh, NoParent, node, op, c)
         == LinkSplit(AddRoot(sh, c.id2), c.id2, node, c.id, SplitFor(sh.nodes[node], op))
  {
    var s := SplitFor(sh.nodes[node], op);
    var r := AddRoot(sh, c.id2).nodes[c.id2];
    assert InsertAt(r.keys, 0, s.sep) == [s.sep];
    assert InsertAt(r.kids, 1, c.id) == [node, c.id];
    assert InnerPut(r, s.sep, c.id) == Inner(FRESH_WORD, NegInf, PosInf, [s.sep], [node, c.id]);
    assert DoSplit(sh, NoParent, node, op, c).nodes
        == LinkSplit(AddRoot(sh, c.id2), c.id2, node, c.id, s).nodes;
  }
}
