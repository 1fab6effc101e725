/**
 Concurrent lookups, inserts and removals on the optimistic-lock-coupling B+tree, as a machine whose
 steps are the program's atomic accesses, interleaved freely between any number of threads. A removal
 ends with its write to the leaf; merging what it leaves underfull is not part of the machine.

 A page read is one step taken at its end. It returns the page's content if the page still
 carries the version the thread read before, and anything at all otherwise: in between, a
 writer may have had the page half rewritten. The writes a thread makes to pages it holds
 locked are one step, because every read of a locked page returns anything.
 */
module OlcTree {
  import opened Options
  import opened OlcNodes

  // ---------------------------------------------------------------------------------------
  // State
  // ---------------------------------------------------------------------------------------

  // `leafMax` and `innerMax` are the two page capacities (maxEntries).
  datatype Shared = Shared(root: nat, nodes: map<nat, Node>, leafMax: nat, innerMax: nat)

  datatype Op = LookupOp(key: int) | InsertOp(key: int, val: Value) | RemoveOp(key: int)

  datatype Link = NoParent | Parent(id: nat, ver: nat)

  datatype Outcome = Restart | Return(changed: bool)

  // Where a thread is; `vn` is always the version read for `node`.
  datatype Pc =
    | Start
    | RootLoaded(node: nat)
    | RootRead(node: nat, vn: nat)
    | Top(parent: Link, node: nat, vn: nat)
    | NotFull(parent: Link, node: nat, vn: nat)
    | Inside(node: nat, vn: nat)
    | ChildRead(node: nat, vn: nat, child: nat)
    | ChildOk(node: nat, vn: nat, child: nat)
    // lookup, at the leaf
    | LeafChecked(parent: Link, node: nat, vn: nat)
    | LeafRead(parent: Link, node: nat, vn: nat, res: Option<Value>)
    | ParentOk(node: nat, vn: nat, res: Option<Value>, seen: Option<Value>)
    | Found(res: Option<Value>, seen: Option<Value>)
    // insert and removal, at the leaf
    | InsLeaf(parent: Link, node: nat, vn: nat)
    | WantLeaf(parent: Link, node: nat, vn: nat)
    | LeafLocked(parent: Link, node: nat, vn: nat)
    | LeafReady(node: nat, vn: nat)
    // insert, splitting `node`
    | WantSplit(parent: Link, node: nat, vn: nat)
    | ParentLocked(pid: nat, vp: nat, node: nat, vn: nat)
    | BothLocked(parent: Link, node: nat, vn: nat)
    | SplitReady(parent: Link, node: nat, vn: nat)
    | UnlockNode(parent: Link, node: nat, vn: nat, out: Outcome)
    | UnlockParent(pid: nat, vp: nat, out: Outcome)
    | Written(changed: bool)

  // Everything a step may pick: what a torn read returns, and fresh page addresses.
  datatype Choice = Choice(id: nat, id2: nat, flag: bool, res: Option<Value>)

  predicate Full(sh: Shared, n: Node) {
    if n.Leaf? then |n.keys| == sh.leafMax else |n.keys| == sh.innerMax - 1
  }

  predicate HasVersion(sh: Shared, id: nat, v: nat) {
    id in sh.nodes && sh.nodes[id].word == v
  }

  function Bump(sh: Shared, id: nat): (r: Shared)
    requires id in sh.nodes
  {
    sh.(nodes := sh.nodes[id := sh.nodes[id].(word := sh.nodes[id].word + 1)])
  }

  function Child(n: Node, k: int): (c: nat)
    requires n.Inner? && |n.kids| == |n.keys| + 1
  {
    n.kids[LowerBound(n.keys, k)]
  }

  function AfterUnlock(out: Outcome): (pc: Pc) {
    match out
    case Restart => Start
    case Return(changed) => Written(changed)
  }

  // ---------------------------------------------------------------------------------------
  // The writes
  // ---------------------------------------------------------------------------------------

  function PutInLeaf(sh: Shared, node: nat, k: int, v: Value): (r: Shared)
    requires node in sh.nodes && sh.nodes[node].Leaf? && PageOk(sh.nodes[node])
  {
    sh.(nodes := sh.nodes[node := LeafPut(sh.nodes[node], k, v)])
  }

  function CutFromLeaf(sh: Shared, node: nat, k: int): (r: Shared)
    requires node in sh.nodes && sh.nodes[node].Leaf? && PageOk(sh.nodes[node])
  {
    sh.(nodes := sh.nodes[node := LeafCut(sh.nodes[node], k)])
  }

  /** What inserting or removing does to the leaf, and whether it changes it. */
  function WriteLeaf(sh: Shared, node: nat, op: Op): (r: Shared)
    requires node in sh.nodes && sh.nodes[node].Leaf? && PageOk(sh.nodes[node])
  {
    match op
    case InsertOp(k, v) => PutInLeaf(sh, node, k, v)
    case RemoveOp(k) => CutFromLeaf(sh, node, k)
    case LookupOp(_) => sh
  }

  function WriteOutcome(n: Node, op: Op): (out: Outcome)
    requires n.Leaf? ==> |n.vals| == |n.keys|
  {
    if n.Leaf? then Return(op.InsertOp? == LeafGet(n, op.key).None?) else Restart
  }

  /** The split of the page itself; a full leaf also takes the new key, on the side it belongs to. */
  function SplitFor(n: Node, op: Op): (s: Split)
    requires PageOk(n) && 2 <= |n.keys|
  {
    var s := SplitNode(n);
    if n.Inner? || !op.InsertOp? then s
    else if op.key > s.sep then
      SplitOk(n);
      s.(right := LeafPut(s.right, op.key, op.val))
    else
      SplitOk(n);
      s.(left := LeafPut(s.left, op.key, op.val))
  }

  /** Links the new page into the parent, or into a new root above the old one. */
  function DoSplit(sh: Shared, parent: Link, node: nat, op: Op, c: Choice): (r: Shared)
    requires node in sh.nodes && PageOk(sh.nodes[node]) && 2 <= |sh.nodes[node].keys|
    requires parent.Parent? ==>
               parent.id in sh.nodes && sh.nodes[parent.id].Inner? && PageOk(sh.nodes[parent.id])
  {
    var s := SplitFor(sh.nodes[node], op);
    var nodes := sh.nodes[node := s.left][c.id := s.right];
    match parent
    case Parent(pid, _) => sh.(nodes := nodes[pid := InnerPut(sh.nodes[pid], s.sep, c.id)])
    case NoParent =>
      sh.(nodes := nodes[c.id2 := Inner(FRESH_WORD, NegInf, PosInf, [s.sep], [node, c.id])], root := c.id2)
  }

  // ---------------------------------------------------------------------------------------
  // One step of one thread
  // ---------------------------------------------------------------------------------------

  ghost predicate Step(sh: Shared, op: Op, pc: Pc, c: Choice, sh': Shared, pc': Pc) {
    match pc
    case Start => sh' == sh && pc' == RootLoaded(sh.root)
    case RootLoaded(node) =>
      && node in sh.nodes && sh' == sh
      && pc' == if sh.nodes[node].word % 2 == 1 then Start else RootRead(node, sh.nodes[node].word)
    case RootRead(node, vn) =>
      sh' == sh && pc' == if node != sh.root then Start else Top(NoParent, node, vn)
    case Top(parent, node, vn) =>
      && node in sh.nodes && sh' == sh
      && (if sh.nodes[node].Inner? then
            if !op.InsertOp? then pc' == PastParent(sh, parent, Inside(node, vn))
            else
              && (sh.nodes[node].word == vn ==> c.flag == Full(sh, sh.nodes[node]))
              && pc' == if c.flag then WantSplit(parent, node, vn) else NotFull(parent, node, vn)
          else if op.LookupOp? then
            pc' == if sh.nodes[node].word == vn then LeafChecked(parent, node, vn) else Start
          else if op.RemoveOp? then pc' == WantLeaf(parent, node, vn)
          else
            pc' == PastParent(sh, parent, InsLeaf(parent, node, vn)))
    case NotFull(parent, node, vn) => sh' == sh && pc' == PastParent(sh, parent, Inside(node, vn))
    case Inside(node, vn) =>
      && node in sh.nodes && sh' == sh
      && (sh.nodes[node].word == vn ==>
            && sh.nodes[node].Inner? && |sh.nodes[node].kids| == |sh.nodes[node].keys| + 1
            && c.id == Child(sh.nodes[node], op.key))
      && pc' == ChildRead(node, vn, c.id)
    case ChildRead(node, vn, child) =>
      sh' == sh && pc' == if HasVersion(sh, node, vn) then ChildOk(node, vn, child) else Start
    case ChildOk(node, vn, child) =>
      && child in sh.nodes && sh' == sh
      && pc' == if sh.nodes[child].word % 2 == 1 then Start else Top(Parent(node, vn), child, sh.nodes[child].word)

    case LeafChecked(parent, node, vn) =>
      && node in sh.nodes && sh' == sh
      && (sh.nodes[node].word == vn ==>
            && sh.nodes[node].Leaf? && |sh.nodes[node].vals| == |sh.nodes[node].keys|
            && c.res == LeafGet(sh.nodes[node], op.key))
      && pc' == LeafRead(parent, node, vn, c.res)
    case LeafRead(parent, node, vn, res) =>
      sh' == sh && pc' == PastParent(sh, parent, ParentOk(node, vn, res, Get(sh, op.key)))
    case ParentOk(node, vn, res, seen) =>
      sh' == sh && pc' == if HasVersion(sh, node, vn) then Found(res, seen) else Start
    case Found(_, _) => false

    case InsLeaf(parent, node, vn) =>
      && node in sh.nodes && sh' == sh
      && (sh.nodes[node].word == vn ==> c.flag == Full(sh, sh.nodes[node]))
      && pc' == if c.flag then WantSplit(parent, node, vn) else WantLeaf(parent, node, vn)
    case WantLeaf(parent, node, vn) =>
      if HasVersion(sh, node, vn) then sh' == Bump(sh, node) && pc' == LeafLocked(parent, node, vn)
      else sh' == sh && pc' == Start
    case LeafLocked(parent, node, vn) =>
      && sh' == sh
      && pc' == if parent.Parent? && !HasVersion(sh, parent.id, parent.ver)
                then UnlockNode(NoParent, node, vn, Restart) else LeafReady(node, vn)
    case LeafReady(node, vn) =>
      && node in sh.nodes && sh.nodes[node].Leaf? && PageOk(sh.nodes[node])
      && sh' == WriteLeaf(sh, node, op)
      && pc' == UnlockNode(NoParent, node, vn, WriteOutcome(sh.nodes[node], op))

    case WantSplit(parent, node, vn) =>
      if parent.Parent? then
        if HasVersion(sh, parent.id, parent.ver)
        then sh' == Bump(sh, parent.id) && pc' == ParentLocked(parent.id, parent.ver, node, vn)
        else sh' == sh && pc' == Start
      else if HasVersion(sh, node, vn) then sh' == Bump(sh, node) && pc' == BothLocked(NoParent, node, vn)
      else sh' == sh && pc' == Start
    case ParentLocked(pid, vp, node, vn) =>
      if HasVersion(sh, node, vn) then sh' == Bump(sh, node) && pc' == BothLocked(Parent(pid, vp), node, vn)
      else sh' == sh && pc' == UnlockParent(pid, vp, Restart)
    case BothLocked(parent, node, vn) =>
      && sh' == sh
      && pc' == if parent.NoParent? && node != sh.root
                then UnlockNode(NoParent, node, vn, Restart) else SplitReady(parent, node, vn)
    case SplitReady(parent, node, vn) =>
      && node in sh.nodes && PageOk(sh.nodes[node]) && 2 <= |sh.nodes[node].keys|
      && (parent.Parent? ==>
            parent.id in sh.nodes && sh.nodes[parent.id].Inner? && PageOk(sh.nodes[parent.id]))
      && c.id !in sh.nodes && c.id2 !in sh.nodes && c.id != c.id2
      && sh' == DoSplit(sh, parent, node, op, c)
      && pc' == UnlockNode(parent, node, vn, WriteOutcome(sh.nodes[node], op))
    case UnlockNode(parent, node, vn, out) =>
      && node in sh.nodes && sh' == Bump(sh, node)
      && pc' == if parent.Parent? then UnlockParent(parent.id, parent.ver, out) else AfterUnlock(out)
    case UnlockParent(pid, vp, out) =>
      pid in sh.nodes && sh' == Bump(sh, pid) && pc' == AfterUnlock(out)
    case Written(_) => false
  }

  /** Re-validates the parent, restarting the operation when its version has moved. */
  function PastParent(sh: Shared, parent: Link, next: Pc): (pc: Pc) {
    if parent.Parent? && !HasVersion(sh, parent.id, parent.ver) then Start else next
  }

  // ---------------------------------------------------------------------------------------
  // The abstract map
  // ---------------------------------------------------------------------------------------

  ghost predicate LeafFor(sh: Shared, id: nat, k: int) {
    id in sh.nodes && sh.nodes[id].Leaf? && Covers(sh.nodes[id], k)
  }

  /** The binding of a key: what the leaf covering the key holds. */
  ghost function Get(sh: Shared, k: int): (r: Option<Value>) {
    if id :| LeafFor(sh, id, k) && |sh.nodes[id].vals| == |sh.nodes[id].keys| then LeafGet(sh.nodes[id], k) else None
  }

  // ---------------------------------------------------------------------------------------
  // Invariant of the shared tree
  // ---------------------------------------------------------------------------------------

  ghost predicate SlotOk(sh: Shared, m: nat, i: nat)
    requires m in sh.nodes && sh.nodes[m].Inner? && |sh.nodes[m].kids| == |sh.nodes[m].keys| + 1
    requires i <= |sh.nodes[m].keys|
  {
    var n := sh.nodes[m];
    && n.kids[i] in sh.nodes
    && sh.nodes[n.kids[i]].lo == SlotLo(n, i)
    && sh.nodes[n.kids[i]].hi == SlotHi(n, i)
  }

  ghost predicate KidsOk(sh: Shared) {
    forall m, i ::
      m in sh.nodes && sh.nodes[m].Inner? && |sh.nodes[m].kids| == |sh.nodes[m].keys| + 1
        && 0 <= i < |sh.nodes[m].kids| ==>
        SlotOk(sh, m, i)
  }

  ghost predicate OneParent(sh: Shared) {
    && (forall m, i :: m in sh.nodes && sh.nodes[m].Inner? && 0 <= i < |sh.nodes[m].kids| ==>
          sh.nodes[m].kids[i] != sh.root)
    && (forall m, i, m', i' ::
          (&& m in sh.nodes && sh.nodes[m].Inner? && 0 <= i < |sh.nodes[m].kids|
           && m' in sh.nodes && sh.nodes[m'].Inner? && 0 <= i' < |sh.nodes[m'].kids|
           && sh.nodes[m].kids[i] == sh.nodes[m'].kids[i']) ==> m == m' && i == i')
  }

  ghost predicate LeavesApart(sh: Shared) {
    forall a, b, k :: LeafFor(sh, a, k) && LeafFor(sh, b, k) ==> a == b
  }

  ghost predicate PagesOk(sh: Shared) {
    forall m :: m in sh.nodes ==>
      PageOk(sh.nodes[m]) && |sh.nodes[m].keys| <= if sh.nodes[m].Leaf? then sh.leafMax else sh.innerMax - 1
  }

  ghost predicate TreeInv(sh: Shared) {
    && 3 <= sh.leafMax && 3 <= sh.innerMax
    && sh.root in sh.nodes && sh.nodes[sh.root].lo == NegInf && sh.nodes[sh.root].hi == PosInf
    && PagesOk(sh) && KidsOk(sh) && OneParent(sh) && LeavesApart(sh)
  }

  lemma GetIs(sh: Shared, id: nat, k: int)
    requires TreeInv(sh) && LeafFor(sh, id, k)
    ensures Get(sh, k) == LeafGet(sh.nodes[id], k)
  {
  }

  // ---------------------------------------------------------------------------------------
  // Invariant of one thread
  // ---------------------------------------------------------------------------------------

  ghost predicate Known(sh: Shared, id: nat, v: nat) {
    id in sh.nodes && v % 2 == 0 && v <= sh.nodes[id].word
  }

  ghost predicate CoversIf(sh: Shared, op: Op, id: nat, v: nat) {
    HasVersion(sh, id, v) ==> Covers(sh.nodes[id], op.key)
  }

  ghost predicate Routes(sh: Shared, op: Op, n: Node, c: nat) {
    && n.Inner? && |n.kids| == |n.keys| + 1 && Covers(n, op.key)
    && Child(n, op.key) == c
    && (op.InsertOp? ==> !Full(sh, n))
  }

  ghost predicate RoutesIf(sh: Shared, op: Op, id: nat, v: nat, c: nat) {
    HasVersion(sh, id, v) ==> Routes(sh, op, sh.nodes[id], c)
  }

  ghost predicate LinkInv(sh: Shared, op: Op, parent: Link, node: nat) {
    parent.Parent? ==> Known(sh, parent.id, parent.ver) && RoutesIf(sh, op, parent.id, parent.ver, node)
  }

  ghost predicate LinkLocked(sh: Shared, op: Op, parent: Link, node: nat) {
    parent.Parent? ==>
      && HasVersion(sh, parent.id, parent.ver + 1) && parent.ver % 2 == 0 && parent.id != node
      && Routes(sh, op, sh.nodes[parent.id], node)
  }

  ghost predicate ReadIf(sh: Shared, op: Op, id: nat, v: nat, res: Option<Value>) {
    HasVersion(sh, id, v) && sh.nodes[id].Leaf? && |sh.nodes[id].vals| == |sh.nodes[id].keys|
    ==> res == LeafGet(sh.nodes[id], op.key)
  }

  ghost predicate ThreadInv(sh: Shared, op: Op, pc: Pc) {
    match pc
    case Start => true
    case RootLoaded(node) => node in sh.nodes
    case RootRead(node, vn) => Known(sh, node, vn)
    case Top(parent, node, vn) =>
      && Known(sh, node, vn) && LinkInv(sh, op, parent, node)
      && (parent.NoParent? ==> CoversIf(sh, op, node, vn))
    case NotFull(parent, node, vn) =>
      && op.InsertOp?
      && Known(sh, node, vn) && sh.nodes[node].Inner? && LinkInv(sh, op, parent, node)
      && (parent.NoParent? ==> CoversIf(sh, op, node, vn))
      && (HasVersion(sh, node, vn) ==> !Full(sh, sh.nodes[node]))
    case Inside(node, vn) =>
      && Known(sh, node, vn) && sh.nodes[node].Inner? && CoversIf(sh, op, node, vn)
      && (op.InsertOp? && HasVersion(sh, node, vn) ==> !Full(sh, sh.nodes[node]))
    case ChildRead(node, vn, child) =>
      Known(sh, node, vn) && RoutesIf(sh, op, node, vn, child)
    case ChildOk(node, vn, child) =>
      Known(sh, node, vn) && RoutesIf(sh, op, node, vn, child) && child in sh.nodes
    case LeafChecked(parent, node, vn) =>
      && op.LookupOp? && Known(sh, node, vn) && sh.nodes[node].Leaf? && LinkInv(sh, op, parent, node)
      && (parent.NoParent? ==> CoversIf(sh, op, node, vn))
    case LeafRead(parent, node, vn, res) =>
      && op.LookupOp? && Known(sh, node, vn) && sh.nodes[node].Leaf? && LinkInv(sh, op, parent, node)
      && (parent.NoParent? ==> CoversIf(sh, op, node, vn)) && ReadIf(sh, op, node, vn, res)
    case ParentOk(node, vn, res, seen) =>
      && op.LookupOp? && Known(sh, node, vn) && sh.nodes[node].Leaf? && CoversIf(sh, op, node, vn)
      && ReadIf(sh, op, node, vn, res) && ReadIf(sh, op, node, vn, seen)
    case Found(res, seen) => op.LookupOp? && res == seen
    case InsLeaf(parent, node, vn) =>
      && op.InsertOp? && Known(sh, node, vn) && sh.nodes[node].Leaf? && LinkInv(sh, op, parent, node)
      && CoversIf(sh, op, node, vn)
    case WantLeaf(parent, node, vn) =>
      && !op.LookupOp? && Known(sh, node, vn) && sh.nodes[node].Leaf? && LinkInv(sh, op, parent, node)
      && (parent.NoParent? ==> CoversIf(sh, op, node, vn))
      && (op.InsertOp? && HasVersion(sh, node, vn) ==> !Full(sh, sh.nodes[node]))
    case LeafLocked(parent, node, vn) =>
      && !op.LookupOp? && vn % 2 == 0 && HasVersion(sh, node, vn + 1) && sh.nodes[node].Leaf?
      && LinkInv(sh, op, parent, node) && (parent.NoParent? ==> Covers(sh.nodes[node], op.key))
      && (op.InsertOp? ==> !Full(sh, sh.nodes[node]))
    case LeafReady(node, vn) =>
      && !op.LookupOp? && vn % 2 == 0 && HasVersion(sh, node, vn + 1) && sh.nodes[node].Leaf?
      && Covers(sh.nodes[node], op.key) && (op.InsertOp? ==> !Full(sh, sh.nodes[node]))
    case WantSplit(parent, node, vn) =>
      && op.InsertOp? && Known(sh, node, vn) && LinkInv(sh, op, parent, node)
      && (parent.NoParent? || sh.nodes[node].Leaf? ==> CoversIf(sh, op, node, vn))
      && (HasVersion(sh, node, vn) ==> Full(sh, sh.nodes[node]))
    case ParentLocked(pid, vp, node, vn) =>
      && op.InsertOp? && Known(sh, node, vn)
      && HasVersion(sh, pid, vp + 1) && vp % 2 == 0 && Routes(sh, op, sh.nodes[pid], node)
      && (HasVersion(sh, node, vn) ==> Full(sh, sh.nodes[node]))
    case BothLocked(parent, node, vn) =>
      && op.InsertOp? && vn % 2 == 0 && HasVersion(sh, node, vn + 1) && Full(sh, sh.nodes[node])
      && LinkLocked(sh, op, parent, node)
    case SplitReady(parent, node, vn) =>
      && op.InsertOp? && vn % 2 == 0 && HasVersion(sh, node, vn + 1) && Full(sh, sh.nodes[node])
      && LinkLocked(sh, op, parent, node) && (parent.NoParent? ==> sh.root == node)
    case UnlockNode(parent, node, vn, out) =>
      && !op.LookupOp? && vn % 2 == 0 && HasVersion(sh, node, vn + 1)
      && (parent.Parent? ==>
            parent.id != node && parent.ver % 2 == 0 && HasVersion(sh, parent.id, parent.ver + 1))
    case UnlockParent(pid, vp, out) =>
      !op.LookupOp? && vp % 2 == 0 && HasVersion(sh, pid, vp + 1)
    case Written(_) => !op.LookupOp?
  }

  /** The pages a thread holds write-locked. */
  ghost function Owns(pc: Pc): (ids: set<nat>) {
    match pc
    case LeafLocked(_, node, _) => {node}
    case LeafReady(node, _) => {node}
    case ParentLocked(pid, _, _, _) => {pid}
    case BothLocked(parent, node, _) => LinkIds(parent) + {node}
    case SplitReady(parent, node, _) => LinkIds(parent) + {node}
    case UnlockNode(parent, node, _, _) => LinkIds(parent) + {node}
    case UnlockParent(pid, _, _) => {pid}
    case _ => {}
  }

  ghost function LinkIds(parent: Link): set<nat> {
    if parent.Parent? then {parent.id} else {}
  }

  // ---------------------------------------------------------------------------------------
  // What a step leaves alone
  // ---------------------------------------------------------------------------------------

  ghost predicate OnlyWord(n: Node, n': Node) {
    n' == n.(word := n'.word)
  }

  /** Pages not owned keep their content; their word may only move from unlocked to locked. */
  ghost predicate Evolves(sh: Shared, sh': Shared, owned: set<nat>) {
    && sh'.leafMax == sh.leafMax && sh'.innerMax == sh.innerMax
    && (sh'.root == sh.root || sh.root in owned)
    && forall id :: id in sh.nodes ==>
         && id in sh'.nodes && sh.nodes[id].word <= sh'.nodes[id].word
         && sh'.nodes[id].Leaf? == sh.nodes[id].Leaf?
         && (id !in owned ==>
               || sh'.nodes[id] == sh.nodes[id]
               || (sh.nodes[id].word % 2 == 0 && OnlyWord(sh.nodes[id], sh'.nodes[id])
                   && sh'.nodes[id].word == sh.nodes[id].word + 1))
  }

  ghost predicate AllLocked(sh: Shared, ids: set<nat>) {
    forall id :: id in ids ==> id in sh.nodes && sh.nodes[id].word % 2 == 1
  }

  lemma OwnsLocked(sh: Shared, op: Op, pc: Pc)
    requires ThreadInv(sh, op, pc)
    ensures AllLocked(sh, Owns(pc))
  {
  }

  /** A version seen unlocked and still current means the page has not been touched. */
  lemma StillCurrent(sh: Shared, sh': Shared, owned: set<nat>, id: nat, v: nat)
    requires Evolves(sh, sh', owned) && AllLocked(sh, owned)
    requires Known(sh, id, v)
    ensures Known(sh', id, v)
    ensures HasVersion(sh', id, v) ==> HasVersion(sh, id, v) && sh'.nodes[id] == sh.nodes[id]
  {
  }

  /** A page locked by a thread is not touched by the others. */
  lemma StillMine(sh: Shared, sh': Shared, owned: set<nat>, id: nat)
    requires Evolves(sh, sh', owned)
    requires id in sh.nodes && sh.nodes[id].word % 2 == 1 && id !in owned
    ensures id in sh'.nodes && sh'.nodes[id] == sh.nodes[id]
  {
  }

  /** Between reading a version and locking: nothing is owned. */
  predicate Reading(pc: Pc) {
    || pc.RootLoaded? || pc.RootRead? || pc.Top? || pc.NotFull? || pc.Inside? || pc.ChildRead? || pc.ChildOk?
    || pc.LeafChecked? || pc.LeafRead? || pc.ParentOk? || pc.InsLeaf? || pc.WantLeaf? || pc.WantSplit?
  }

  lemma ReadingFrame(sh: Shared, sh': Shared, owned: set<nat>, op: Op, pc: Pc)
    requires Evolves(sh, sh', owned) && AllLocked(sh, owned) && ThreadInv(sh, op, pc) && Reading(pc)
    ensures ThreadInv(sh', op, pc)
  {
    if pc.Top? || pc.NotFull? || pc.LeafChecked? || pc.LeafRead? || pc.InsLeaf? || pc.WantLeaf? || pc.WantSplit? {
      LinkFrame(sh, sh', owned, op, pc.parent, pc.node);
    }
    if !pc.RootLoaded? {
      StillCurrent(sh, sh', owned, pc.node, pc.vn);
      NodeStays(sh, sh', owned, pc.node);
    }
    if pc.ChildOk? {
      NodeStays(sh, sh', owned, pc.child);
    }
    hide AllLocked, LinkInv, Routes;
  }

  lemma NodeStays(sh: Shared, sh': Shared, owned: set<nat>, id: nat)
    requires Evolves(sh, sh', owned) && id in sh.nodes
    ensures id in sh'.nodes && sh'.nodes[id].Leaf? == sh.nodes[id].Leaf?
    ensures sh'.leafMax == sh.leafMax && sh'.innerMax == sh.innerMax
  {
  }

  lemma HoldingFrame(sh: Shared, sh': Shared, owned: set<nat>, op: Op, pc: Pc)
    requires Evolves(sh, sh', owned) && AllLocked(sh, owned) && ThreadInv(sh, op, pc) && !Reading(pc)
    requires forall id :: id in Owns(pc) ==> id in sh'.nodes && id in sh.nodes && sh'.nodes[id] == sh.nodes[id]
    requires pc.SplitReady? && pc.parent.NoParent? && sh.root == pc.node ==> sh'.root == sh.root
    ensures ThreadInv(sh', op, pc)
  {
    if pc.LeafLocked? {
      LinkFrame(sh, sh', owned, op, pc.parent, pc.node);
    } else if pc.ParentLocked? {
      StillCurrent(sh, sh', owned, pc.node, pc.vn);
    }
    hide AllLocked, LinkInv;
  }

  /** The step of one thread keeps what every other thread relies on. */
  lemma ThreadFrame(sh: Shared, sh': Shared, owned: set<nat>, op: Op, pc: Pc)
    requires Evolves(sh, sh', owned) && AllLocked(sh, owned)
    requires ThreadInv(sh, op, pc) && Owns(pc) !! owned
    ensures ThreadInv(sh', op, pc)
  {
    if Reading(pc) {
      ReadingFrame(sh, sh', owned, op, pc);
    } else {
      OwnsLocked(sh, op, pc);
      forall id | id in Owns(pc) ensures id in sh'.nodes && sh'.nodes[id] == sh.nodes[id] {
        StillMine(sh, sh', owned, id);
      }
      hide ThreadInv;
      HoldingFrame(sh, sh', owned, op, pc);
    }
  }

  lemma LinkFrame(sh: Shared, sh': Shared, owned: set<nat>, op: Op, parent: Link, node: nat)
    requires Evolves(sh, sh', owned) && AllLocked(sh, owned)
    requires LinkInv(sh, op, parent, node)
    ensures LinkInv(sh', op, parent, node)
  {
    if parent.Parent? {
      StillCurrent(sh, sh', owned, parent.id, parent.ver);
    }
  }
}
