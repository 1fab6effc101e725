/**
 An operation on the lock-coupling B+tree that runs alone is never turned back without need: from an
 unlocked tree every attempt ends within a number of steps given by the number of pages, finished, or
 turned back after the split of a full inner page.
 */
module OlcAlone {
  import opened Options
  import opened OlcNodes
  import opened OlcTree
  import opened OlcSplit
  import opened OlcRuns

  // ---------------------------------------------------------------------------------------
  // Paths from the root
  // ---------------------------------------------------------------------------------------

  /** A page sends the key of the operation to `c`, and has room for another separator if that is an insert. */
  predicate Sends(sh: Shared, op: Op, m: nat, c: nat) {
    && m in sh.nodes && sh.nodes[m].Inner? && |sh.nodes[m].kids| == |sh.nodes[m].keys| + 1
    && Child(sh.nodes[m], op.key) == c && (op.InsertOp? ==> !Full(sh, sh.nodes[m]))
  }

  /** The way of the key down from the root, which visits no page twice. */
  predicate Chain(sh: Shared, op: Op, path: seq<nat>) {
    && |path| > 0 && path[0] == sh.root && (forall i :: 0 <= i < |path| ==> path[i] in sh.nodes)
    && (forall i :: 0 < i < |path| ==> Sends(sh, op, path[i - 1], path[i]))
    && (forall i, j :: 0 <= i < j < |path| ==> path[i] != path[j])
  }

  lemma RootIsNoKid(sh: Shared, op: Op, m: nat, c: nat)
    requires TreeInv(sh) && Sends(sh, op, m, c)
    ensures c != sh.root
  {
  }

  lemma OtherParentOtherKid(sh: Shared, op: Op, a: nat, x: nat, b: nat, y: nat)
    requires TreeInv(sh) && Sends(sh, op, a, x) && Sends(sh, op, b, y) && a != b
    ensures x != y
  {
  }

  /** A child of the last page on the path is not on the path: it would have two parents, or be the root. */
  lemma ChainGrows(sh: Shared, op: Op, path: seq<nat>, c: nat)
    requires TreeInv(sh) && Chain(sh, op, path) && Sends(sh, op, path[|path| - 1], c) && c in sh.nodes
    ensures Chain(sh, op, path + [c])
  {
    hide TreeInv, Sends;
    var k := |path| - 1;
    RootIsNoKid(sh, op, path[k], c);
    forall i | 0 < i < |path| ensures path[i] != c {
      OtherParentOtherKid(sh, op, path[i - 1], path[i], path[k], c);
    }
  }

  lemma {:induction false} DistinctFit(path: seq<nat>, ids: set<nat>)
    requires forall i :: 0 <= i < |path| ==> path[i] in ids
    requires forall i, j :: 0 <= i < j < |path| ==> path[i] != path[j]
    ensures |path| <= |ids|
  {
    if path != [] {
      var last := path[|path| - 1];
      DistinctFit(path[..|path| - 1], ids - {last});
    }
  }

  lemma ChainFits(sh: Shared, op: Op, path: seq<nat>)
    requires Chain(sh, op, path)
    ensures |path| <= |sh.nodes|
  {
    DistinctFit(path, sh.nodes.Keys);
    assert |sh.nodes.Keys| == |sh.nodes|;
  }

  // ---------------------------------------------------------------------------------------
  // An attempt
  // ---------------------------------------------------------------------------------------

  /** Only the given pages are locked. */
  ghost predicate OnlyLocked(sh: Shared, ids: set<nat>) {
    forall id :: id in sh.nodes && id !in ids ==> sh.nodes[id].word % 2 == 0
  }

  predicate AtPage(sh: Shared, op: Op, node: nat, vn: nat, path: seq<nat>) {
    Chain(sh, op, path) && node == path[|path| - 1] && HasVersion(sh, node, vn)
  }

  predicate AtLink(sh: Shared, op: Op, parent: Link, node: nat, vn: nat, path: seq<nat>) {
    && AtPage(sh, op, node, vn, path) && Ends(parent, node, path)
    && (parent.Parent? ==> HasVersion(sh, parent.id, parent.ver))
  }

  /** The path ends with the link to the node. */
  predicate Ends(parent: Link, node: nat, path: seq<nat>) {
    && |path| > 0 && path[|path| - 1] == node
    && if |path| == 1 then parent.NoParent? else parent.Parent? && parent.id == path[|path| - 2]
  }

  /** Everything the thread has read is current. */
  predicate Current(sh: Shared, op: Op, pc: Pc, path: seq<nat>) {
    match pc
    case RootLoaded(node) => node == sh.root
    case RootRead(node, vn) => node == sh.root && HasVersion(sh, node, vn)
    case Top(parent, node, vn) => AtLink(sh, op, parent, node, vn, path)
    case NotFull(parent, node, vn) => AtLink(sh, op, parent, node, vn, path)
    case Inside(node, vn) => AtPage(sh, op, node, vn, path)
    case ChildRead(node, vn, child) => AtPage(sh, op, node, vn, path) && Sends(sh, op, node, child)
    case ChildOk(node, vn, child) => AtPage(sh, op, node, vn, path) && Sends(sh, op, node, child)
    case LeafChecked(parent, node, vn) => AtLink(sh, op, parent, node, vn, path)
    case LeafRead(parent, node, vn, _) => AtLink(sh, op, parent, node, vn, path)
    case ParentOk(node, vn, _, _) => HasVersion(sh, node, vn)
    case InsLeaf(parent, node, vn) => AtLink(sh, op, parent, node, vn, path)
    case WantLeaf(parent, node, vn) => AtLink(sh, op, parent, node, vn, path)
    case LeafLocked(parent, _, _) => parent.Parent? ==> HasVersion(sh, parent.id, parent.ver)
    case WantSplit(parent, node, vn) => AtLink(sh, op, parent, node, vn, path)
    case ParentLocked(pid, vp, node, vn) =>
      HasVersion(sh, node, vn) && Chain(sh, op, path) && Ends(Parent(pid, vp), node, path)
    case BothLocked(parent, node, _) => Chain(sh, op, path) && Ends(parent, node, path)
    case SplitReady(parent, node, _) => Chain(sh, op, path) && Ends(parent, node, path)
    case _ => true
  }

  /** The first full inner page on the way of the key has been split. */
  ghost predicate HasSplit(before: Shared, sh: Shared, op: Op) {
    op.InsertOp? && exists path, c :: SplitBy(before, sh, op, path, c)
  }

  function LinkOf(path: seq<nat>): (parent: Link) {
    if |path| < 2 then NoParent else Parent(path[|path| - 2], 0)
  }

  ghost predicate CanSplit(sh: Shared, op: Op, path: seq<nat>, c: Choice) {
    && Chain(sh, op, path) && c.id !in sh.nodes && c.id2 !in sh.nodes && c.id != c.id2
    && (|path| > 1 ==> PageOk(sh.nodes[path[|path| - 2]]))
    && var n := sh.nodes[path[|path| - 1]];
       n.Inner? && Full(sh, n) && PageOk(n) && 2 <= |n.keys|
  }

  ghost predicate SplitBy(before: Shared, sh: Shared, op: Op, path: seq<nat>, c: Choice) {
    CanSplit(before, op, path, c) && OnlyWords(DoSplit(before, LinkOf(path), path[|path| - 1], op, c), sh)
  }

  /** Nothing has been written yet: pages differ in their words only. */
  ghost predicate OnlyWords(before: Shared, sh: Shared) {
    && sh.leafMax == before.leafMax && sh.innerMax == before.innerMax && sh.root == before.root
    && sh.nodes.Keys == before.nodes.Keys
    && forall id :: id in before.nodes ==> OnlyWord(before.nodes[id], sh.nodes[id])
  }

  predicate TurnedBack(pc: Pc) { (pc.UnlockNode? || pc.UnlockParent?) && pc.out.Restart? }

  predicate Finishing(pc: Pc) { pc.UnlockNode? || pc.UnlockParent? || pc.Found? || pc.Written? }

  ghost predicate Attempt(before: Shared, sh: Shared, op: Op, pc: Pc, path: seq<nat>) {
    && TreeInv(sh) && ThreadInv(sh, op, pc) && OnlyLocked(sh, Owns(pc)) && Current(sh, op, pc, path)
    && (Finishing(pc) || OnlyWords(before, sh)) && (TurnedBack(pc) ==> HasSplit(before, sh, op))
  }

  /** The attempt is over: the operation is done, or starts again after a split. */
  ghost predicate Over(before: Shared, sh: Shared, op: Op, pc: Pc) {
    pc.Found? || pc.Written? || (pc.Start? && HasSplit(before, sh, op))
  }

  function Stage(pc: Pc): (n: nat) {
    match pc
    case Start => 22
    case RootLoaded(_) => 21
    case RootRead(_, _) => 20
    case Top(_, _, _) => 19
    case NotFull(_, _, _) => 18
    case Inside(_, _) => 17
    case ChildRead(_, _, _) => 16
    case ChildOk(_, _, _) => 15
    case InsLeaf(_, _, _) => 15
    case LeafChecked(_, _, _) => 14
    case LeafRead(_, _, _, _) => 13
    case ParentOk(_, _, _, _) => 12
    case WantLeaf(_, _, _) => 12
    case LeafLocked(_, _, _) => 11
    case LeafReady(_, _) => 10
    case WantSplit(_, _, _) => 9
    case ParentLocked(_, _, _, _) => 8
    case BothLocked(_, _, _) => 7
    case SplitReady(_, _, _) => 6
    case UnlockNode(_, _, _, _) => 5
    case UnlockParent(_, _, _) => 4
    case _ => 0
  }

  predicate OnPath(pc: Pc) { pc.Top? || pc.NotFull? || pc.Inside? || pc.ChildRead? || pc.ChildOk? }

  predicate AtRoot(pc: Pc) { pc.Start? || pc.RootLoaded? || pc.RootRead? }

  /** How many steps are left at most: each page further down costs less than twenty. */
  function Left(pages: nat, pc: Pc, depth: nat): (n: nat) {
    Stage(pc) + if AtRoot(pc) then 20 * pages else if OnPath(pc) && depth <= pages then 20 * (pages - depth) else 0
  }

  // ---------------------------------------------------------------------------------------
  // Its steps
  // ---------------------------------------------------------------------------------------

  lemma RootStep(sh: Shared, op: Op, pc: Pc, c: Choice, sh': Shared, pc': Pc, path: seq<nat>) returns (path': seq<nat>)
    requires TreeInv(sh) && ThreadInv(sh, op, pc) && OnlyLocked(sh, {}) && Current(sh, op, pc, path)
    requires AtRoot(pc) && Step(sh, op, pc, c, sh', pc')
    ensures sh' == sh && Current(sh, op, pc', path') && Owns(pc') == {} && !Finishing(pc')
    ensures Left(|sh.nodes|, pc', |path'|) < Left(|sh.nodes|, pc, |path|)
  {
    path' := [sh.root];
    ChainFits(sh, op, path');
  }

  lemma TopStep(sh: Shared, op: Op, pc: Pc, c: Choice, sh': Shared, pc': Pc, path: seq<nat>)
    requires OnlyLocked(sh, {}) && Current(sh, op, pc, path)
    requires (pc.Top? || pc.NotFull?) && Step(sh, op, pc, c, sh', pc')
    ensures sh' == sh && Current(sh, op, pc', path) && Owns(pc') == {} && !Finishing(pc')
    ensures Left(|sh.nodes|, pc', |path|) < Left(|sh.nodes|, pc, |path|)
  {
    ChainFits(sh, op, path);
    hide Chain, OnlyLocked, Full, Current, Owns, Left;
    if pc.Top? && sh.nodes[pc.node].Leaf? {
      TopLeafDoes(sh, op, pc, c, sh', pc', path);
    } else {
      TopInnerDoes(sh, op, pc, c, sh', pc', path);
    }
    hide Step;
    Nearer(sh, pc, pc', path);
  }

  lemma TopInnerDoes(sh: Shared, op: Op, pc: Pc, c: Choice, sh': Shared, pc': Pc, path: seq<nat>)
    requires Current(sh, op, pc, path) && ((pc.Top? && sh.nodes[pc.node].Inner?) || pc.NotFull?)
    requires Step(sh, op, pc, c, sh', pc')
    ensures sh' == sh && Current(sh, op, pc', path)
    ensures pc'.WantSplit? || pc'.Inside? || (pc.Top? && pc'.NotFull?)
  {
    hide Chain, Full;
  }

  lemma TopLeafDoes(sh: Shared, op: Op, pc: Pc, c: Choice, sh': Shared, pc': Pc, path: seq<nat>)
    requires pc.Top? && Current(sh, op, pc, path) && sh.nodes[pc.node].Leaf? && Step(sh, op, pc, c, sh', pc')
    ensures sh' == sh && Current(sh, op, pc', path) && (pc'.LeafChecked? || pc'.WantLeaf? || pc'.InsLeaf?)
  {
    hide Chain;
  }

  /** Steps on one page, or away from the descent, lead to a later stage. */
  lemma Nearer(sh: Shared, pc: Pc, pc': Pc, path: seq<nat>)
    requires |path| <= |sh.nodes| && Stage(pc') < Stage(pc) && !AtRoot(pc') && (OnPath(pc) || !OnPath(pc'))
    ensures Left(|sh.nodes|, pc', |path|) < Left(|sh.nodes|, pc, |path|)
  {
    hide Stage;
  }

  lemma DownStep(sh: Shared, op: Op, pc: Pc, c: Choice, sh': Shared, pc': Pc, path: seq<nat>) returns (path': seq<nat>)
    requires TreeInv(sh) && ThreadInv(sh, op, pc) && OnlyLocked(sh, {}) && Current(sh, op, pc, path)
    requires (pc.Inside? || pc.ChildRead? || pc.ChildOk?) && Step(sh, op, pc, c, sh', pc')
    ensures sh' == sh && Current(sh, op, pc', path') && Owns(pc') == {} && !Finishing(pc')
    ensures Left(|sh.nodes|, pc', |path'|) < Left(|sh.nodes|, pc, |path|)
  {
    ChainFits(sh, op, path);
    path' := path;
    hide TreeInv, Chain, OnlyLocked, Left, ThreadInv, Step;
    if pc.ChildOk? {
      path' := ChildStep(sh, op, pc, c, sh', pc', path);
    } else {
      InsideDoes(sh, op, pc, c, sh', pc', path);
      Nearer(sh, pc, pc', path);
    }
  }

  lemma ChildStep(sh: Shared, op: Op, pc: Pc, c: Choice, sh': Shared, pc': Pc, path: seq<nat>) returns (path': seq<nat>)
    requires TreeInv(sh) && OnlyLocked(sh, {}) && Current(sh, op, pc, path)
    requires pc.ChildOk? && Step(sh, op, pc, c, sh', pc')
    ensures sh' == sh && Current(sh, op, pc', path') && pc'.Top?
    ensures Left(|sh.nodes|, pc', |path'|) < Left(|sh.nodes|, pc, |path|)
  {
    assert |path| > 0 && pc.child in sh.nodes;
    hide TreeInv, Chain, Sends;
    ChainGrows(sh, op, path, pc.child);
    path' := path + [pc.child];
    ChainFits(sh, op, path');
  }

  lemma InsideDoes(sh: Shared, op: Op, pc: Pc, c: Choice, sh': Shared, pc': Pc, path: seq<nat>)
    requires ThreadInv(sh, op, pc) && Current(sh, op, pc, path)
    requires (pc.Inside? || pc.ChildRead?) && Step(sh, op, pc, c, sh', pc')
    ensures sh' == sh && Current(sh, op, pc', path) && if pc.Inside? then pc'.ChildRead? else pc'.ChildOk?
  {
    hide Chain;
  }

  lemma LeafStep(sh: Shared, op: Op, pc: Pc, c: Choice, sh': Shared, pc': Pc, path: seq<nat>)
    requires Current(sh, op, pc, path)
    requires (pc.LeafChecked? || pc.LeafRead? || pc.ParentOk? || pc.InsLeaf?) && Step(sh, op, pc, c, sh', pc')
    ensures sh' == sh && Current(sh, op, pc', path) && Owns(pc') == {} && (Finishing(pc') ==> pc'.Found?)
    ensures Left(|sh.nodes|, pc', |path|) < Left(|sh.nodes|, pc, |path|)
  {
    hide Chain, LeafGet, Get, Full;
  }

  lemma LockOne(before: Shared, sh: Shared, id: nat, held: set<nat>)
    requires OnlyWords(before, sh) && id in sh.nodes && OnlyLocked(sh, held)
    ensures OnlyWords(before, Bump(sh, id)) && OnlyLocked(Bump(sh, id), held + {id})
    ensures |Bump(sh, id).nodes| == |sh.nodes|
  {
    assert Bump(sh, id).nodes.Keys == sh.nodes.Keys;
    assert |sh.nodes.Keys| == |sh.nodes| && |Bump(sh, id).nodes.Keys| == |Bump(sh, id).nodes|;
  }

  lemma SendsStill(sh: Shared, sh': Shared, op: Op, m: nat, c: nat)
    requires OnlyWords(sh, sh') && Sends(sh, op, m, c)
    ensures Sends(sh', op, m, c)
  {
  }

  /** The way of the key does not depend on words. */
  lemma ChainStill(sh: Shared, sh': Shared, op: Op, path: seq<nat>)
    requires OnlyWords(sh, sh') && Chain(sh, op, path)
    ensures Chain(sh', op, path)
  {
    hide Sends;
    forall i | 0 < i < |path| ensures Sends(sh', op, path[i - 1], path[i]) {
      SendsStill(sh, sh', op, path[i - 1], path[i]);
    }
  }

  lemma LockKeepsChain(sh: Shared, id: nat, op: Op, path: seq<nat>)
    requires id in sh.nodes && Chain(sh, op, path)
    ensures Chain(Bump(sh, id), op, path)
  {
    hide Chain, Sends;
    assert OnlyWords(sh, Bump(sh, id));
    ChainStill(sh, Bump(sh, id), op, path);
  }

  lemma ParentElsewhere(sh: Shared, op: Op, parent: Link, node: nat, vn: nat, path: seq<nat>)
    requires AtLink(sh, op, parent, node, vn, path)
    ensures node in sh.nodes && (parent.Parent? ==> parent.id != node && parent.id in sh.nodes)
    ensures parent.NoParent? ==> node == sh.root
  {
  }

  lemma WantLeafStep(before: Shared, sh: Shared, op: Op, pc: Pc, path: seq<nat>)
    requires pc.WantLeaf? && AtLink(sh, op, pc.parent, pc.node, pc.vn, path)
    requires OnlyLocked(sh, {}) && OnlyWords(before, sh)
    ensures var sh', pc' := Bump(sh, pc.node), LeafLocked(pc.parent, pc.node, pc.vn);
            && Current(sh', op, pc', path) && OnlyLocked(sh', Owns(pc')) && OnlyWords(before, sh')
            && Left(|sh'.nodes|, pc', |path|) < Left(|sh.nodes|, pc, |path|)
  {
    hide OnlyWords, OnlyLocked, Chain;
    ParentElsewhere(sh, op, pc.parent, pc.node, pc.vn, path);
    LockOne(before, sh, pc.node, {});
    assert {} + {pc.node} == {pc.node};
  }

  lemma WantRootStep(before: Shared, sh: Shared, op: Op, pc: Pc, path: seq<nat>)
    requires pc.WantSplit? && pc.parent.NoParent? && AtLink(sh, op, pc.parent, pc.node, pc.vn, path)
    requires OnlyLocked(sh, {}) && OnlyWords(before, sh)
    ensures var sh', pc' := Bump(sh, pc.node), BothLocked(NoParent, pc.node, pc.vn);
            && Current(sh', op, pc', path) && OnlyLocked(sh', Owns(pc')) && OnlyWords(before, sh')
            && Left(|sh'.nodes|, pc', |path|) < Left(|sh.nodes|, pc, |path|)
  {
    hide OnlyWords, OnlyLocked, Chain;
    ParentElsewhere(sh, op, pc.parent, pc.node, pc.vn, path);
    LockOne(before, sh, pc.node, {});
    LockKeepsChain(sh, pc.node, op, path);
    assert {} + {pc.node} == {pc.node};
  }

  lemma WantParentStep(before: Shared, sh: Shared, op: Op, pc: Pc, path: seq<nat>)
    requires pc.WantSplit? && pc.parent.Parent? && AtLink(sh, op, pc.parent, pc.node, pc.vn, path)
    requires OnlyLocked(sh, {}) && OnlyWords(before, sh)
    ensures var sh', pc' := Bump(sh, pc.parent.id), ParentLocked(pc.parent.id, pc.parent.ver, pc.node, pc.vn);
            && Current(sh', op, pc', path) && OnlyLocked(sh', Owns(pc')) && OnlyWords(before, sh')
            && Left(|sh'.nodes|, pc', |path|) < Left(|sh.nodes|, pc, |path|)
  {
    hide OnlyWords, OnlyLocked, Chain;
    ParentElsewhere(sh, op, pc.parent, pc.node, pc.vn, path);
    LockOne(before, sh, pc.parent.id, {});
    LockKeepsChain(sh, pc.parent.id, op, path);
    assert {} + {pc.parent.id} == {pc.parent.id};
  }

  lemma WantStep(before: Shared, sh: Shared, op: Op, pc: Pc, c: Choice, sh': Shared, pc': Pc, path: seq<nat>)
    requires OnlyLocked(sh, {}) && Current(sh, op, pc, path) && OnlyWords(before, sh)
    requires (pc.WantLeaf? || pc.WantSplit?) && Step(sh, op, pc, c, sh', pc')
    ensures Current(sh', op, pc', path) && OnlyLocked(sh', Owns(pc')) && OnlyWords(before, sh') && !Finishing(pc')
    ensures Left(|sh'.nodes|, pc', |path|) < Left(|sh.nodes|, pc, |path|)
  {
    hide OnlyWords, OnlyLocked, Chain, Left, Owns;
    if pc.WantLeaf? {
      WantLeafStep(before, sh, op, pc, path);
    } else if pc.parent.Parent? {
      WantParentStep(before, sh, op, pc, path);
    } else {
      WantRootStep(before, sh, op, pc, path);
    }
  }

  lemma HoldDoes(sh: Shared, op: Op, pc: Pc, c: Choice, sh': Shared, pc': Pc, path: seq<nat>)
    requires Current(sh, op, pc, path)
    requires (pc.LeafLocked? || pc.ParentLocked? || pc.BothLocked?) && Step(sh, op, pc, c, sh', pc')
    ensures pc.LeafLocked? ==> sh' == sh && pc' == LeafReady(pc.node, pc.vn)
    ensures pc.BothLocked? ==> sh' == sh && pc' == SplitReady(pc.parent, pc.node, pc.vn)
    ensures pc.ParentLocked? ==>
              && pc.node in sh.nodes && sh' == Bump(sh, pc.node)
              && pc' == BothLocked(Parent(pc.pid, pc.vp), pc.node, pc.vn)
  {
  }

  lemma LaterStage(sh: Shared, pc: Pc, sh': Shared, pc': Pc, path: seq<nat>)
    requires Stage(pc') < Stage(pc) && !AtRoot(pc') && !OnPath(pc')
    ensures Left(|sh'.nodes|, pc', |path|) < Left(|sh.nodes|, pc, |path|)
  {
    hide Stage;
  }

  lemma HoldStep(before: Shared, sh: Shared, op: Op, pc: Pc, c: Choice, sh': Shared, pc': Pc, path: seq<nat>)
    requires OnlyLocked(sh, Owns(pc)) && Current(sh, op, pc, path) && OnlyWords(before, sh)
    requires (pc.LeafLocked? || pc.ParentLocked? || pc.BothLocked?) && Step(sh, op, pc, c, sh', pc')
    ensures Current(sh', op, pc', path) && OnlyLocked(sh', Owns(pc')) && OnlyWords(before, sh') && !Finishing(pc')
    ensures Left(|sh'.nodes|, pc', |path|) < Left(|sh.nodes|, pc, |path|)
  {
    hide Step, OnlyWords, OnlyLocked, Left, Chain;
    HoldDoes(sh, op, pc, c, sh', pc', path);
    if pc.ParentLocked? {
      LockOne(before, sh, pc.node, {pc.pid});
      LockKeepsChain(sh, pc.node, op, path);
    }
    LaterStage(sh, pc, sh', pc', path);
  }

  /** Writing to the leaf ends the attempt. */
  lemma LeafWriteStep(sh: Shared, op: Op, pc: Pc, c: Choice, sh': Shared, pc': Pc)
    requires pc.LeafReady? && ThreadInv(sh, op, pc) && OnlyLocked(sh, {pc.node}) && Step(sh, op, pc, c, sh', pc')
    ensures OnlyLocked(sh', {pc.node}) && pc'.UnlockNode? && pc'.out.Return?
    ensures pc'.parent.NoParent? && pc'.node == pc.node
  {
    LeafPutWord(sh.nodes[pc.node], op);
  }

  lemma SplitLocked(sh: Shared, parent: Link, node: nat, op: Op, c: Choice, held: set<nat>)
    requires node in sh.nodes && PageOk(sh.nodes[node]) && 2 <= |sh.nodes[node].keys| && op.InsertOp?
    requires sh.nodes[node].Leaf? ==> Covers(sh.nodes[node], op.key)
    requires parent.Parent? ==>
               parent.id in sh.nodes && parent.id != node && sh.nodes[parent.id].Inner? && PageOk(sh.nodes[parent.id])
    requires OnlyLocked(sh, held) && node in held && c.id !in sh.nodes && c.id2 !in sh.nodes
    ensures OnlyLocked(DoSplit(sh, parent, node, op, c), held)
    ensures var n' := DoSplit(sh, parent, node, op, c).nodes;
            node in n' && n'[node] == SplitFor(sh.nodes[node], op).left
  {
    hide SplitFor, PageOk, InnerPut;
    SplitSmaller(sh.nodes[node], op);
    InnerPutWord(sh, parent, c, SplitFor(sh.nodes[node], op).sep);
  }

  lemma InnerPutWord(sh: Shared, parent: Link, c: Choice, sep: int)
    requires parent.Parent? ==>
               parent.id in sh.nodes && sh.nodes[parent.id].Inner? && PageOk(sh.nodes[parent.id])
    ensures parent.Parent? ==> InnerPut(sh.nodes[parent.id], sep, c.id).word == sh.nodes[parent.id].word
  {
  }

  /** Splitting a leaf ends the attempt; splitting an inner page turns the operation back. */
  lemma SplitWriteStep(before: Shared, sh: Shared, op: Op, pc: Pc, c: Choice, sh': Shared, pc': Pc, path: seq<nat>)
    requires TreeInv(sh) && ThreadInv(sh, op, pc) && OnlyLocked(sh, Owns(pc)) && OnlyWords(before, sh)
    requires pc.SplitReady? && Chain(sh, op, path) && Ends(pc.parent, pc.node, path) && Step(sh, op, pc, c, sh', pc')
    ensures OnlyLocked(sh', Owns(pc')) && pc'.UnlockNode? && (pc'.out.Restart? ==> HasSplit(before, sh', op))
  {
    hide SplitFor, TreeInv, PageOk, DoSplit, OnlyLocked, OnlyWords, Full, ThreadInv, Step, LinkLocked, Chain;
    ReadyFacts(sh, op, pc);
    SplitReadyOk(sh, pc.parent, pc.node, op);
    SplitDoes(sh, op, pc, c, sh', pc');
    SplitLocked(sh, pc.parent, pc.node, op, c, Owns(pc));
    if pc'.out.Restart? {
      SplitCounts(before, sh, op, pc, c, path);
    }
  }

  lemma ReadyFacts(sh: Shared, op: Op, pc: Pc)
    requires pc.SplitReady? && ThreadInv(sh, op, pc)
    ensures op.InsertOp? && pc.node in sh.nodes && Full(sh, sh.nodes[pc.node])
    ensures LinkLocked(sh, op, pc.parent, pc.node) && (pc.parent.NoParent? ==> sh.root == pc.node)
    ensures pc.parent.Parent? ==> pc.parent.id != pc.node
  {
    hide Full;
  }

  lemma SplitDoes(sh: Shared, op: Op, pc: Pc, c: Choice, sh': Shared, pc': Pc)
    requires pc.SplitReady? && Step(sh, op, pc, c, sh', pc')
    ensures pc.node in sh.nodes && PageOk(sh.nodes[pc.node]) && 2 <= |sh.nodes[pc.node].keys|
    ensures pc.parent.Parent? ==>
              pc.parent.id in sh.nodes && sh.nodes[pc.parent.id].Inner? && PageOk(sh.nodes[pc.parent.id])
    ensures c.id !in sh.nodes && c.id2 !in sh.nodes && c.id != c.id2 && sh' == DoSplit(sh, pc.parent, pc.node, op, c)
    ensures pc'.UnlockNode? && pc'.parent == pc.parent && pc'.node == pc.node
    ensures pc'.out.Restart? <==> sh.nodes[pc.node].Inner?
  {
    hide SplitFor, PageOk, DoSplit;
  }

  lemma SplitCounts(before: Shared, sh: Shared, op: Op, pc: Pc, c: Choice, path: seq<nat>)
    requires OnlyWords(before, sh) && Chain(sh, op, path) && op.InsertOp?
    requires pc.SplitReady? && Ends(pc.parent, pc.node, path) && pc.node in sh.nodes
    requires sh.nodes[pc.node].Inner? && Full(sh, sh.nodes[pc.node])
    requires PageOk(sh.nodes[pc.node]) && 2 <= |sh.nodes[pc.node].keys|
    requires pc.parent.Parent? ==>
               pc.parent.id in sh.nodes && sh.nodes[pc.parent.id].Inner? && PageOk(sh.nodes[pc.parent.id])
    requires c.id !in sh.nodes && c.id2 !in sh.nodes && c.id != c.id2
    ensures HasSplit(before, DoSplit(sh, pc.parent, pc.node, op, c), op)
  {
    SameWay(before, sh, op, path);
    assert OnlyWord(before.nodes[pc.node], sh.nodes[pc.node]);
    hide Chain;
    if pc.parent.Parent? {
      assert OnlyWord(before.nodes[pc.parent.id], sh.nodes[pc.parent.id]);
    }
    assert CanSplit(before, op, path, c);
    SplitOfWords(before, sh, LinkOf(path), pc.parent, pc.node, op, c);
    assert SplitBy(before, DoSplit(sh, pc.parent, pc.node, op, c), op, path, c);
  }

  lemma SameWay(before: Shared, sh: Shared, op: Op, path: seq<nat>)
    requires OnlyWords(before, sh) && Chain(sh, op, path)
    ensures Chain(before, op, path)
  {
    assert OnlyWords(sh, before);
    ChainStill(sh, before, op, path);
  }

  /** The split of an inner page does not depend on words. */
  lemma SplitOfWords(before: Shared, sh: Shared, link: Link, parent: Link, node: nat, op: Op, c: Choice)
    requires OnlyWords(before, sh) && node in sh.nodes && sh.nodes[node].Inner?
    requires PageOk(sh.nodes[node]) && PageOk(before.nodes[node]) && 2 <= |sh.nodes[node].keys|
    requires link.Parent? == parent.Parent? && c.id !in sh.nodes && c.id2 !in sh.nodes && c.id != c.id2
    requires parent.Parent? ==>
               && link.id == parent.id && parent.id in sh.nodes && sh.nodes[parent.id].Inner? && parent.id != node
               && PageOk(sh.nodes[parent.id]) && PageOk(before.nodes[parent.id])
    ensures OnlyWords(DoSplit(before, link, node, op, c), DoSplit(sh, parent, node, op, c))
  {
    hide PageOk;
    assert OnlyWord(before.nodes[node], sh.nodes[node]);
    var a, b := DoSplit(before, link, node, op, c), DoSplit(sh, parent, node, op, c);
    forall id | id in a.nodes ensures id in b.nodes && OnlyWord(a.nodes[id], b.nodes[id]) {
      if id in before.nodes { assert OnlyWord(before.nodes[id], sh.nodes[id]); }
    }
  }

  lemma SplitSmaller(n: Node, op: Op)
    requires PageOk(n) && 2 <= |n.keys| && op.InsertOp? && (n.Leaf? ==> Covers(n, op.key))
    ensures var s := SplitFor(n, op);
            s.right.word == FRESH_WORD && (n.Inner? ==> |s.left.keys| < |n.keys|)
  {
    SplitOk(n);
  }

  lemma UnlockOne(sh: Shared, id: nat, held: set<nat>)
    requires id in sh.nodes && sh.nodes[id].word % 2 == 1 && OnlyLocked(sh, held + {id})
    ensures OnlyLocked(Bump(sh, id), held)
  {
  }

  lemma StillSplit(before: Shared, sh: Shared, op: Op, id: nat)
    requires HasSplit(before, sh, op) && id in sh.nodes
    ensures HasSplit(before, Bump(sh, id), op)
  {
    hide DoSplit, PageOk, Full, OnlyWords;
    var path, c :| SplitBy(before, sh, op, path, c);
    BumpedWords(DoSplit(before, LinkOf(path), path[|path| - 1], op, c), sh, id);
    assert SplitBy(before, Bump(sh, id), op, path, c);
  }

  lemma BumpedWords(a: Shared, sh: Shared, id: nat)
    requires OnlyWords(a, sh) && id in sh.nodes
    ensures OnlyWords(a, Bump(sh, id))
  {
  }

  lemma UnlockDoes(sh: Shared, op: Op, pc: Pc, c: Choice, sh': Shared, pc': Pc)
    requires (pc.UnlockNode? || pc.UnlockParent?) && ThreadInv(sh, op, pc) && Step(sh, op, pc, c, sh', pc')
    ensures var id := if pc.UnlockNode? then pc.node else pc.pid;
            && id in sh.nodes && sh.nodes[id].word % 2 == 1 && sh' == Bump(sh, id)
            && pc' == if pc.UnlockNode? && pc.parent.Parent? then UnlockParent(pc.parent.id, pc.parent.ver, pc.out)
                      else AfterUnlock(pc.out)
  {
  }

  lemma UnlockStep(before: Shared, sh: Shared, op: Op, pc: Pc, c: Choice, sh': Shared, pc': Pc)
    requires ThreadInv(sh, op, pc) && OnlyLocked(sh, Owns(pc)) && (TurnedBack(pc) ==> HasSplit(before, sh, op))
    requires (pc.UnlockNode? || pc.UnlockParent?) && Step(sh, op, pc, c, sh', pc')
    ensures OnlyLocked(sh', Owns(pc'))
    ensures if pc'.UnlockParent? then pc.UnlockNode? && (TurnedBack(pc') ==> HasSplit(before, sh', op))
            else Over(before, sh', op, pc')
  {
    hide OnlyLocked, HasSplit, ThreadInv, Step;
    UnlockDoes(sh, op, pc, c, sh', pc');
    var id := if pc.UnlockNode? then pc.node else pc.pid;
    if TurnedBack(pc) {
      StillSplit(before, sh, op, id);
    }
    if pc.UnlockNode? {
      UnlockOne(sh, id, LinkIds(pc.parent));
    } else {
      assert {} + {id} == {id};
      UnlockOne(sh, id, {});
    }
  }

  lemma KeepsInv(sh: Shared, op: Op, pc: Pc, c: Choice, sh': Shared, pc': Pc)
    requires TreeInv(sh) && ThreadInv(sh, op, pc) && Step(sh, op, pc, c, sh', pc')
    ensures TreeInv(sh') && ThreadInv(sh', op, pc')
  {
    hide TreeInv, ThreadInv, Step, Writes;
    StepThread(sh, op, pc, c, sh', pc');
    if Writes(sh, pc) {
      WriteStep(sh, op, pc, c, sh', pc');
    } else {
      SilentStep(sh, op, pc, c, sh', pc');
    }
  }

  /** Where the thread owns nothing. */
  predicate Free(pc: Pc) {
    AtRoot(pc) || OnPath(pc) || pc.LeafChecked? || pc.LeafRead? || pc.ParentOk? || pc.InsLeaf?
  }

  /** The attempt has fewer steps to go. */
  ghost predicate GoesOn(before: Shared, op: Op, sh: Shared, pc: Pc, path: seq<nat>, sh': Shared, pc': Pc,
                         path': seq<nat>)
  {
    && Current(sh', op, pc', path') && (Finishing(pc') || OnlyWords(before, sh'))
    && (TurnedBack(pc') ==> HasSplit(before, sh', op))
    && Left(|sh'.nodes|, pc', |path'|) < Left(|sh.nodes|, pc, |path|)
  }

  lemma FreeStep(before: Shared, sh: Shared, op: Op, pc: Pc, c: Choice, sh': Shared, pc': Pc, path: seq<nat>)
    returns (path': seq<nat>)
    requires TreeInv(sh) && ThreadInv(sh, op, pc) && OnlyLocked(sh, {}) && Current(sh, op, pc, path)
    requires OnlyWords(before, sh) && Free(pc) && Step(sh, op, pc, c, sh', pc')
    ensures OnlyLocked(sh', Owns(pc'))
    ensures Over(before, sh', op, pc') || GoesOn(before, op, sh, pc, path, sh', pc', path')
  {
    hide TreeInv, ThreadInv, Step, OnlyLocked, Current, OnlyWords, HasSplit, Left, Owns;
    path' := path;
    if AtRoot(pc) {
      path' := RootStep(sh, op, pc, c, sh', pc', path);
    } else if pc.Top? || pc.NotFull? {
      TopStep(sh, op, pc, c, sh', pc', path);
    } else if pc.Inside? || pc.ChildRead? || pc.ChildOk? {
      path' := DownStep(sh, op, pc, c, sh', pc', path);
    } else {
      LeafStep(sh, op, pc, c, sh', pc', path);
    }
  }

  predicate Locking(pc: Pc) {
    pc.WantLeaf? || pc.WantSplit? || pc.LeafLocked? || pc.ParentLocked? || pc.BothLocked?
  }

  lemma LockedStep(before: Shared, sh: Shared, op: Op, pc: Pc, c: Choice, sh': Shared, pc': Pc, path: seq<nat>)
    requires OnlyLocked(sh, Owns(pc)) && Current(sh, op, pc, path)
    requires OnlyWords(before, sh) && Step(sh, op, pc, c, sh', pc')
    requires Locking(pc)
    ensures OnlyLocked(sh', Owns(pc')) && GoesOn(before, op, sh, pc, path, sh', pc', path)
  {
    hide Step, OnlyLocked, OnlyWords, HasSplit, Current, Left;
    if pc.WantLeaf? || pc.WantSplit? {
      WantStep(before, sh, op, pc, c, sh', pc', path);
    } else {
      HoldStep(before, sh, op, pc, c, sh', pc', path);
    }
  }

  /** On to the unlocking. */
  lemma Unlocks(before: Shared, op: Op, sh: Shared, pc: Pc, sh': Shared, pc': Pc, path: seq<nat>)
    requires pc.LeafReady? || pc.SplitReady? || pc.UnlockNode?
    requires if pc.UnlockNode? then pc'.UnlockParent? else pc'.UnlockNode?
    requires TurnedBack(pc') ==> HasSplit(before, sh', op)
    ensures GoesOn(before, op, sh, pc, path, sh', pc', path)
  {
    hide HasSplit;
  }

  lemma FinalStep(before: Shared, sh: Shared, op: Op, pc: Pc, c: Choice, sh': Shared, pc': Pc, path: seq<nat>)
    requires TreeInv(sh) && ThreadInv(sh, op, pc) && OnlyLocked(sh, Owns(pc)) && Step(sh, op, pc, c, sh', pc')
    requires (Finishing(pc) || OnlyWords(before, sh)) && (TurnedBack(pc) ==> HasSplit(before, sh, op))
    requires pc.LeafReady? || pc.SplitReady? || Finishing(pc)
    requires pc.SplitReady? ==> Chain(sh, op, path) && Ends(pc.parent, pc.node, path)
    ensures OnlyLocked(sh', Owns(pc'))
    ensures Over(before, sh', op, pc') || GoesOn(before, op, sh, pc, path, sh', pc', path)
  {
    hide TreeInv, ThreadInv, Step, OnlyLocked, OnlyWords, HasSplit, GoesOn;
    if pc.LeafReady? {
      LeafWriteStep(sh, op, pc, c, sh', pc');
      assert Owns(pc') == {pc.node};
      Unlocks(before, op, sh, pc, sh', pc', path);
    } else if pc.SplitReady? {
      SplitWriteStep(before, sh, op, pc, c, sh', pc', path);
      Unlocks(before, op, sh, pc, sh', pc', path);
    } else {
      NotDone(sh, op, pc, c, sh', pc');
      UnlockStep(before, sh, op, pc, c, sh', pc');
      if pc'.UnlockParent? {
        Unlocks(before, op, sh, pc, sh', pc', path);
      }
    }
  }

  lemma StillAttempt(before: Shared, sh: Shared, op: Op, pc: Pc, path: seq<nat>, sh': Shared, pc': Pc, path': seq<nat>)
    requires GoesOn(before, op, sh, pc, path, sh', pc', path')
    requires TreeInv(sh') && ThreadInv(sh', op, pc') && OnlyLocked(sh', Owns(pc'))
    ensures Attempt(before, sh', op, pc', path') && Left(|sh'.nodes|, pc', |path'|) < Left(|sh.nodes|, pc, |path|)
  {
    hide TreeInv, ThreadInv, OnlyLocked, Current, OnlyWords, HasSplit, Left, Finishing, TurnedBack, Owns;
  }

  lemma OwnsNothing(pc: Pc)
    requires Free(pc)
    ensures Owns(pc) == {} && !Finishing(pc)
  {
  }

  lemma FreeAttempt(before: Shared, sh: Shared, op: Op, pc: Pc, c: Choice, sh': Shared, pc': Pc, path: seq<nat>)
    returns (path': seq<nat>)
    requires Attempt(before, sh, op, pc, path) && Free(pc) && Step(sh, op, pc, c, sh', pc')
    ensures OnlyLocked(sh', Owns(pc'))
    ensures Over(before, sh', op, pc') || GoesOn(before, op, sh, pc, path, sh', pc', path')
  {
    hide TreeInv, ThreadInv, Step, OnlyLocked, Current, OnlyWords, HasSplit, GoesOn, Over, Free, Finishing, Owns;
    OwnsNothing(pc);
    path' := FreeStep(before, sh, op, pc, c, sh', pc', path);
  }

  lemma ReadyPath(sh: Shared, op: Op, pc: Pc, path: seq<nat>)
    requires pc.SplitReady? && Current(sh, op, pc, path)
    ensures Chain(sh, op, path) && Ends(pc.parent, pc.node, path)
  {
  }

  lemma LockedAttempt(before: Shared, sh: Shared, op: Op, pc: Pc, c: Choice, sh': Shared, pc': Pc, path: seq<nat>)
    requires Attempt(before, sh, op, pc, path) && !Free(pc) && Step(sh, op, pc, c, sh', pc')
    ensures OnlyLocked(sh', Owns(pc'))
    ensures Over(before, sh', op, pc') || GoesOn(before, op, sh, pc, path, sh', pc', path)
  {
    hide TreeInv, ThreadInv, Step, OnlyLocked, Current, OnlyWords, HasSplit, GoesOn, Over, Owns;
    if pc.SplitReady? {
      ReadyPath(sh, op, pc, path);
    }
    if Locking(pc) {
      LockedStep(before, sh, op, pc, c, sh', pc', path);
    } else {
      FinalStep(before, sh, op, pc, c, sh', pc', path);
    }
  }

  /** One step of an attempt: it is over, or has fewer steps to go. */
  lemma AttemptStep(before: Shared, sh: Shared, op: Op, pc: Pc, c: Choice, sh': Shared, pc': Pc, path: seq<nat>)
    returns (path': seq<nat>)
    requires Attempt(before, sh, op, pc, path) && Step(sh, op, pc, c, sh', pc')
    ensures TreeInv(sh') && ThreadInv(sh', op, pc') && OnlyLocked(sh', Owns(pc'))
    ensures Over(before, sh', op, pc')
            || (Attempt(before, sh', op, pc', path') && Left(|sh'.nodes|, pc', |path'|) < Left(|sh.nodes|, pc, |path|))
  {
    hide TreeInv, ThreadInv, Step, OnlyLocked, Current, OnlyWords, HasSplit, Left, Over, Free, GoesOn, Owns, Finishing;
    KeepsInv(sh, op, pc, c, sh', pc');
    path' := path;
    if Free(pc) {
      path' := FreeAttempt(before, sh, op, pc, c, sh', pc', path);
    } else {
      LockedAttempt(before, sh, op, pc, c, sh', pc', path);
    }
    hide Attempt;
    if !Over(before, sh', op, pc') {
      StillAttempt(before, sh, op, pc, path, sh', pc', path');
    }
  }

  lemma NotDone(sh: Shared, op: Op, pc: Pc, c: Choice, sh': Shared, pc': Pc)
    requires Step(sh, op, pc, c, sh', pc')
    ensures !pc.Found? && !pc.Written?
  {
  }

  // ---------------------------------------------------------------------------------------
  // Whole attempts
  // ---------------------------------------------------------------------------------------

  datatype Spot = Spot(sh: Shared, pc: Pc)

  ghost predicate Goes(a: Spot, b: Spot, op: Op) { exists c :: Step(a.sh, op, a.pc, c, b.sh, b.pc) }

  /** The operation runs alone. */
  ghost predicate Alone(run: seq<Spot>, op: Op) {
    |run| > 0 && forall i :: 0 <= i < |run| - 1 ==> Goes(run[i], run[i + 1], op)
  }

  lemma StartsAttempt(sh: Shared, op: Op)
    requires TreeInv(sh) && OnlyLocked(sh, {})
    ensures Attempt(sh, sh, op, Start, [])
  {
  }

  /** However it goes on: left alone, an attempt on an unlocked tree is over within a number of steps. */
  lemma {:induction false} AttemptEnds(before: Shared, op: Op, run: seq<Spot>, i: nat) returns (path: seq<nat>)
    requires TreeInv(before) && OnlyLocked(before, {}) && Alone(run, op) && run[0] == Spot(before, Start) && i < |run|
    requires forall j :: 0 < j <= i ==> !Over(before, run[j].sh, op, run[j].pc)
    ensures Attempt(before, run[i].sh, op, run[i].pc, path)
    ensures i + Left(|run[i].sh.nodes|, run[i].pc, |path|) <= 20 * |before.nodes| + 22
  {
    hide Attempt, Step, TreeInv, OnlyLocked, Over;
    if i == 0 {
      StartsAttempt(before, op);
      path := [];
    } else {
      var p := AttemptEnds(before, op, run, i - 1);
      assert Goes(run[i - 1], run[i - 1 + 1], op);
      var c :| Step(run[i - 1].sh, op, run[i - 1].pc, c, run[i].sh, run[i].pc);
      path := AttemptStep(before, run[i - 1].sh, op, run[i - 1].pc, c, run[i].sh, run[i].pc, p);
    }
  }

  lemma FreshIds(ids: set<nat>) returns (a: nat, b: nat)
    ensures a !in ids && b !in ids && a != b
  {
    a := FreshId(ids);
    b := FreshId(ids + {a});
  }

  lemma FreshId(ids: set<nat>) returns (a: nat)
    ensures a !in ids
  {
    a := 0;
    var below: set<nat> := {};
    while a in ids
      invariant below <= ids && (forall b :: b in below <==> 0 <= b < a) && |below| == a
      decreases |ids| - a
    {
      BelowFits(below + {a}, ids);
      below := below + {a};
      a := a + 1;
    }
  }

  lemma BelowFits(a: set<nat>, b: set<nat>)
    requires a <= b
    ensures |a| <= |b|
  {
    assert b == a + (b - a);
  }

  lemma OverOwnsNothing(before: Shared, sh: Shared, op: Op, pc: Pc)
    requires Over(before, sh, op, pc)
    ensures Owns(pc) == {}
  {
  }

  lemma Prepend(s: Spot, rest: seq<Spot>, op: Op)
    requires Alone(rest, op) && Goes(s, rest[0], op)
    ensures Alone([s] + rest, op)
  {
    hide Goes;
    var run := [s] + rest;
    forall i | 0 <= i < |run| - 1 ensures Goes(run[i], run[i + 1], op) {
      if i > 0 { assert Goes(rest[i - 1], rest[i], op); }
    }
  }

  /** It does get over: the lookup has its answer, the write is done, or a full inner page has been split. */
  lemma {:induction false} AttemptAlone(before: Shared, sh: Shared, op: Op, pc: Pc, path: seq<nat>)
    returns (run: seq<Spot>)
    requires Attempt(before, sh, op, pc, path) && !pc.Found? && !pc.Written?
    ensures Alone(run, op) && run[0] == Spot(sh, pc) && |run| > 1
    ensures var last := run[|run| - 1];
            && Over(before, last.sh, op, last.pc) && TreeInv(last.sh) && OnlyLocked(last.sh, {})
    decreases Left(|sh.nodes|, pc, |path|)
  {
    var a, b := FreshIds(sh.nodes.Keys);
    hide TreeInv, ThreadInv, Step, OnlyLocked, HasSplit, Left, Current, OnlyWords, Owns;
    var c, sh', pc' := NeverStuck(sh, op, pc, a, b);
    var path' := AttemptStep(before, sh, op, pc, c, sh', pc', path);
    hide Attempt;
    var s, s' := Spot(sh, pc), Spot(sh', pc');
    assert Goes(s, s', op);
    if Over(before, sh', op, pc') {
      OverOwnsNothing(before, sh', op, pc');
      run := [s, s'];
    } else {
      hide Over, Goes;
      var rest := AttemptAlone(before, sh', op, pc', path');
      Prepend(s, rest, op);
      run := [s] + rest;
    }
  }

  /** Any operation can be started at any time. */
  lemma CanStart(s: State, t: nat, op: Op) returns (s': State)
    requires Inv(s) && t !in s.threads
    ensures Next(s, s') && Inv(s') && s'.sh == s.sh && t in s'.threads
    ensures s'.threads[t].op == op && s'.threads[t].pc.Start? && s'.threads[t].since == |s.log|
  {
    s' := s.(threads := s.threads[t := Thread(op, Start, 0, |s.log|, 0)]);
    assert Spawns(s, s', t, op);
    NextInv(s, s');
    hide Inv;
  }

  // ---------------------------------------------------------------------------------------
  // All attempts together
  // ---------------------------------------------------------------------------------------

  function FullInner(sh: Shared): (ids: set<nat>) {
    set id | id in sh.nodes && sh.nodes[id].Inner? && Full(sh, sh.nodes[id])
  }

  /** The way of the key comes to a full inner page at the end of `path`. */
  predicate Blocked(sh: Shared, op: Op, path: seq<nat>) {
    Chain(sh, op, path) && path[|path| - 1] in FullInner(sh)
  }

  /** It does so in one way only. */
  lemma BlockedOnce(sh: Shared, op: Op, p: seq<nat>, q: seq<nat>)
    requires op.InsertOp? && Blocked(sh, op, p) && Blocked(sh, op, q)
    ensures |p| == |q|
  {
    var n := if |p| <= |q| then |p| else |q|;
    if |p| < |q| {
      SendsNotFull(sh, op, q[n - 1], q[n]);
    } else if |q| < |p| {
      SendsNotFull(sh, op, p[n - 1], p[n]);
    }
    SamePages(sh, op, p, q, n);
    assert p[n - 1] == p[..n][n - 1] == q[..n][n - 1] == q[n - 1];
  }

  lemma SendsNotFull(sh: Shared, op: Op, m: nat, c: nat)
    requires op.InsertOp? && Sends(sh, op, m, c)
    ensures m !in FullInner(sh)
  {
  }

  lemma {:induction false} SamePages(sh: Shared, op: Op, p: seq<nat>, q: seq<nat>, n: nat)
    requires Chain(sh, op, p) && Chain(sh, op, q) && n <= |p| && n <= |q|
    ensures p[..n] == q[..n]
  {
    if n > 1 {
      SamePages(sh, op, p, q, n - 1);
      assert p[n - 2] == p[..n - 1][n - 2] == q[..n - 1][n - 2] == q[n - 2];
      assert Sends(sh, op, p[n - 2], p[n - 1]) && Sends(sh, op, q[n - 2], q[n - 1]);
      assert p[..n] == p[..n - 1] + [p[n - 1]] && q[..n] == q[..n - 1] + [q[n - 1]];
    }
  }

  /** What a split does to the full pages: the page is none any more, and only its parent may have become one. */
  lemma SplitFull(sh: Shared, op: Op, path: seq<nat>, c: Choice)
    requires 3 <= sh.innerMax && CanSplit(sh, op, path, c)
    ensures var sh', node := DoSplit(sh, LinkOf(path), path[|path| - 1], op, c), path[|path| - 1];
            && node !in FullInner(sh') && (|path| < 2 ==> FullInner(sh') == FullInner(sh) - {node})
            && (|path| >= 2 ==> FullInner(sh') <= FullInner(sh) - {node} + {path[|path| - 2]})
  {
    SplitOk(sh.nodes[path[|path| - 1]]);
  }

  lemma SameFull(a: Shared, sh: Shared)
    requires OnlyWords(a, sh)
    ensures FullInner(sh) == FullInner(a)
  {
    forall id ensures id in FullInner(sh) <==> id in FullInner(a) {
      if id in a.nodes { assert OnlyWord(a.nodes[id], sh.nodes[id]); }
    }
  }

  /** After a split there are fewer full pages, or as many and the parent of the page has become one. */
  lemma SplitHelps(before: Shared, sh: Shared, op: Op, path: seq<nat>, c: Choice)
    requires op.InsertOp? && 3 <= before.innerMax && SplitBy(before, sh, op, path, c)
    ensures |FullInner(sh)| < |FullInner(before)|
            || (|FullInner(sh)| == |FullInner(before)| && |path| >= 2 && path[|path| - 2] in FullInner(sh))
  {
    var a := DoSplit(before, LinkOf(path), path[|path| - 1], op, c);
    var node, f, f' := path[|path| - 1], FullInner(before), FullInner(sh);
    SplitFull(before, op, path, c);
    SameFull(a, sh);
    assert node in f;
    hide DoSplit, OnlyWords, FullInner, PageOk, Full;
    if |path| < 2 {
      assert |f'| == |f| - 1;
    } else {
      var parent := path[|path| - 2];
      SizeBound(f', f, node, parent);
    }
  }

  lemma SizeBound(a: set<nat>, b: set<nat>, x: nat, y: nat)
    requires a <= b - {x} + {y} && x in b
    ensures |a| < |b| || (|a| == |b| && y in a)
  {
    var rest := b - {x};
    if y in a {
      BelowFits(a - {y}, rest);
    } else {
      assert a <= rest;
      BelowFits(a, rest);
    }
  }

  lemma SendsBeside(sh: Shared, op: Op, path: seq<nat>, c: Choice, i: nat)
    requires CanSplit(sh, op, path, c) && 0 < i < |path| - 1
    ensures Sends(DoSplit(sh, LinkOf(path), path[|path| - 1], op, c), op, path[i - 1], path[i])
  {
    hide PageOk, SplitFor, InnerPut;
    assert Sends(sh, op, path[i - 1], path[i]);
  }

  /** The way to the parent of the page that was split is as before. */
  lemma ParentBlocked(before: Shared, sh: Shared, op: Op, path: seq<nat>, c: Choice)
    requires SplitBy(before, sh, op, path, c) && |path| >= 2 && path[|path| - 2] in FullInner(sh)
    ensures Blocked(sh, op, path[..|path| - 1])
  {
    var q, a := path[..|path| - 1], DoSplit(before, LinkOf(path), path[|path| - 1], op, c);
    hide PageOk, OnlyWords;
    assert a.root == before.root && before.nodes.Keys <= a.nodes.Keys;
    forall i | 0 < i < |q| ensures Sends(a, op, q[i - 1], q[i]) {
      SendsBeside(before, op, path, c, i);
    }
    assert Chain(a, op, q) by { hide DoSplit, Sends; }
    hide DoSplit, FullInner;
    ChainStill(a, sh, op, q);
  }

  /** Left alone, every operation finishes, an insert after finitely many splits. */
  lemma {:induction false} FinishesAlone(sh: Shared, op: Op, blocked: seq<nat>) returns (run: seq<Spot>)
    requires TreeInv(sh) && OnlyLocked(sh, {}) && (blocked == [] || Blocked(sh, op, blocked))
    ensures Alone(run, op) && run[0] == Spot(sh, Start)
    ensures var last := run[|run| - 1];
            TreeInv(last.sh) && OnlyLocked(last.sh, {}) && (last.pc.Found? || last.pc.Written?)
    decreases |FullInner(sh)|, if blocked == [] then |sh.nodes| + 1 else |blocked|
  {
    hide TreeInv, OnlyLocked, Blocked, FullInner, Attempt, SplitBy, Goes;
    StartsAttempt(sh, op);
    var first := AttemptAlone(sh, sh, op, Start, []);
    var last := first[|first| - 1];
    if last.pc.Found? || last.pc.Written? {
      run := first;
    } else {
      var path, c :| SplitBy(sh, last.sh, op, path, c);
      var blocked' := NextBlocked(sh, last.sh, op, path, c, blocked);
      var rest := FinishesAlone(last.sh, op, blocked');
      run := Joined(first, rest, op);
    }
  }

  lemma NextBlocked(sh: Shared, sh': Shared, op: Op, path: seq<nat>, c: Choice, blocked: seq<nat>)
    returns (blocked': seq<nat>)
    requires TreeInv(sh) && SplitBy(sh, sh', op, path, c) && (blocked == [] || Blocked(sh, op, blocked))
    requires op.InsertOp?
    ensures blocked' == [] || Blocked(sh', op, blocked')
    ensures |FullInner(sh')| < |FullInner(sh)|
            || (&& |FullInner(sh')| == |FullInner(sh)| && blocked' != []
                && |blocked'| < if blocked == [] then |sh.nodes| + 1 else |blocked|)
  {
    assert 3 <= sh.innerMax && Chain(sh, op, path) && Blocked(sh, op, path);
    hide TreeInv;
    SplitHelps(sh, sh', op, path, c);
    blocked' := [];
    if |FullInner(sh')| == |FullInner(sh)| {
      ParentBlocked(sh, sh', op, path, c);
      ChainFits(sh, op, path);
      if blocked != [] { BlockedOnce(sh, op, path, blocked); }
      hide SplitBy, Blocked, FullInner;
      blocked' := path[..|path| - 1];
    }
  }

  lemma Joined(first: seq<Spot>, rest: seq<Spot>, op: Op) returns (run: seq<Spot>)
    requires Alone(first, op) && Alone(rest, op) && first[|first| - 1] == rest[0]
    ensures Alone(run, op) && run[0] == first[0] && run[|run| - 1] == rest[|rest| - 1]
  {
    hide Goes;
    run := first + rest[1..];
    forall i | 0 <= i < |run| - 1 ensures Goes(run[i], run[i + 1], op) {
      if i < |first| - 1 {
        assert Goes(first[i], first[i + 1], op);
      } else {
        var j := i - (|first| - 1);
        assert run[i] == rest[j] && run[i + 1] == rest[j + 1];
        assert Goes(rest[j], rest[j + 1], op);
      }
    }
  }
}
