/**
 Every interleaving of optimistic lookups, inserts and removals behaves like a map: the tree's content
 is the sequential replay of the writers in the order of their writes, and each lookup that passes
 its version checks returns the replayed binding.
 */
module OlcRuns {
  import opened Options
  import opened OlcNodes
  import opened OlcTree
  import opened OlcSplit

  // `commits`, `since` and `at` are bookkeeping: how often the thread has written, how long the log was
  // when it started, and where in the log its operation takes effect.
  datatype Thread = Thread(op: Op, pc: Pc, commits: nat, since: nat, at: nat)

  datatype Commit = Commit(thread: nat, op: Op, changed: bool)

  // `log` is bookkeeping: the inserts and removals that have written, in order.
  datatype State = State(sh: Shared, threads: map<nat, Thread>, log: seq<Commit>)

  predicate Writes(sh: Shared, pc: Pc) {
    pc.LeafReady? || (pc.SplitReady? && pc.node in sh.nodes && sh.nodes[pc.node].Leaf?)
  }

  ghost predicate Runs(s: State, s': State, t: nat, c: Choice) {
    && t in s.threads && t in s'.threads
    && var th, th' := s.threads[t], s'.threads[t];
       && Step(s.sh, th.op, th.pc, c, s'.sh, th'.pc)
       && th'.op == th.op && th'.since == th.since
       && th'.at == (if Writes(s.sh, th.pc) || (th'.pc.Found? && !th.pc.Found?) then |s.log| else th.at)
       && s'.threads == s.threads[t := th']
       && if Writes(s.sh, th.pc) then
            && th'.commits == th.commits + 1
            && th'.pc.UnlockNode? && th'.pc.out.Return?
            && s'.log == s.log + [Commit(t, th.op, th'.pc.out.changed)]
          else
            th'.commits == th.commits && s'.log == s.log
  }

  ghost predicate Spawns(s: State, s': State, t: nat, op: Op) {
    t !in s.threads && s' == s.(threads := s.threads[t := Thread(op, Start, 0, |s.log|, 0)])
  }

  ghost predicate Next(s: State, s': State) {
    || (exists t, c :: Runs(s, s', t, c))
    || (exists t, op :: Spawns(s, s', t, op))
  }

  ghost predicate Init(s: State) {
    && 3 <= s.sh.leafMax && 3 <= s.sh.innerMax
    && s.sh.nodes == map[s.sh.root := Leaf(FRESH_WORD, NegInf, PosInf, [], [])]
    && s.threads == map[] && s.log == []
  }

  /** What an operation makes of a map, and whether it changes it. */
  function Apply(m: map<int, Value>, op: Op): (m': map<int, Value>) {
    match op
    case InsertOp(k, v) => if k in m then m else m[k := v]
    case RemoveOp(k) => m - {k}
    case LookupOp(_) => m
  }

  predicate Changes(m: map<int, Value>, op: Op) { op.InsertOp? == (op.key !in m) }

  /** The map the logged operations build when executed one after the other. */
  function Replay(log: seq<Commit>): (m: map<int, Value>) {
    if |log| == 0 then map[]
    else
      Apply(Replay(log[..|log| - 1]), log[|log| - 1].op)
  }

  function MapGet(m: map<int, Value>, k: int): (r: Option<Value>) {
    if k in m then Some(m[k]) else None
  }

  // ---------------------------------------------------------------------------------------
  // The invariant
  // ---------------------------------------------------------------------------------------

  predicate AfterWrite(pc: Pc) {
    match pc
    case UnlockNode(_, _, _, out) => out.Return?
    case UnlockParent(_, _, out) => out.Return?
    case Written(_) => true
    case _ => false
  }

  ghost predicate ThreadsOk(s: State) {
    forall t :: t in s.threads ==>
      && ThreadInv(s.sh, s.threads[t].op, s.threads[t].pc)
      && s.threads[t].commits == if AfterWrite(s.threads[t].pc) then 1 else 0
  }

  /** What a thread past its write is going to report. */
  function Told(pc: Pc): (changed: bool) {
    match pc
    case UnlockNode(_, _, _, out) => out == Return(true)
    case UnlockParent(_, _, out) => out == Return(true)
    case Written(changed) => changed
    case _ => false
  }

  /** An operation that is past its write stands in the log with its answer; one that found has read the replay. */
  ghost predicate AnswerOk(s: State, t: nat)
    requires t in s.threads
  {
    var th := s.threads[t];
    && th.since <= |s.log|
    && (AfterWrite(th.pc) ==> th.since <= th.at < |s.log| && s.log[th.at] == Commit(t, th.op, Told(th.pc)))
    && (th.pc.Found? ==>
          th.since <= th.at <= |s.log| && th.pc.res == th.pc.seen == MapGet(Replay(s.log[..th.at]), th.op.key))
  }

  ghost predicate AnswersOk(s: State) {
    && (forall t :: t in s.threads ==> AnswerOk(s, t))
    && forall i :: 0 <= i < |s.log| ==> Authored(s, i)
  }

  /** Every commit is that of one thread, past its write. */
  ghost predicate Authored(s: State, i: nat)
    requires i < |s.log|
  {
    var t := s.log[i].thread;
    t in s.threads && AfterWrite(s.threads[t].pc) && s.threads[t].at == i
  }

  ghost predicate LocksApart(s: State) {
    forall t, u :: t in s.threads && u in s.threads && t != u ==> Owns(s.threads[t].pc) !! Owns(s.threads[u].pc)
  }

  ghost predicate LogOk(s: State) {
    && (forall k {:trigger Get(s.sh, k)} :: Get(s.sh, k) == MapGet(Replay(s.log), k))
    && forall i :: 0 <= i < |s.log| ==> s.log[i].changed == Changes(Replay(s.log[..i]), s.log[i].op)
  }

  ghost predicate Inv(s: State) {
    TreeInv(s.sh) && ThreadsOk(s) && LocksApart(s) && LogOk(s) && AnswersOk(s)
  }

  // ---------------------------------------------------------------------------------------
  // One step
  // ---------------------------------------------------------------------------------------

  predicate Rewrites(pc: Pc) {
    pc.LeafReady? || pc.SplitReady?
  }

  // The page whose lock word a step moves, if any.
  ghost predicate LockStep(sh: Shared, pc: Pc, sh': Shared, id: nat) {
    id in sh.nodes && sh' == Bump(sh, id) && (id in Owns(pc) || sh.nodes[id].word % 2 == 0)
  }

  lemma StepKind(sh: Shared, op: Op, pc: Pc, c: Choice, sh': Shared, pc': Pc)
    requires ThreadInv(sh, op, pc) && Step(sh, op, pc, c, sh', pc') && !Rewrites(pc)
    ensures sh' == sh || exists id :: LockStep(sh, pc, sh', id)
  {
    match pc
    case WantLeaf(parent, node, vn) => assert sh' == sh || LockStep(sh, pc, sh', node);
    case WantSplit(parent, node, vn) =>
      var id := if parent.Parent? then parent.id else node;
      assert sh' == sh || LockStep(sh, pc, sh', id);
    case ParentLocked(pid, vp, node, vn) => assert sh' == sh || LockStep(sh, pc, sh', node);
    case UnlockNode(parent, node, vn, out) => assert LockStep(sh, pc, sh', node);
    case UnlockParent(pid, vp, out) => assert LockStep(sh, pc, sh', pid);
    case _ =>
  }

  lemma SplitEvolves(sh: Shared, op: Op, pc: Pc, c: Choice)
    requires TreeInv(sh) && pc.SplitReady? && ThreadInv(sh, op, pc)
    requires c.id !in sh.nodes && c.id2 !in sh.nodes && c.id != c.id2
    ensures PageOk(sh.nodes[pc.node]) && 2 <= |sh.nodes[pc.node].keys|
    ensures pc.parent.Parent? ==> PageOk(sh.nodes[pc.parent.id])
    ensures Evolves(sh, DoSplit(sh, pc.parent, pc.node, op, c), Owns(pc))
  {
    SplitReadyOk(sh, pc.parent, pc.node, op);
    var l := SplitFor(sh.nodes[pc.node], op).left;
    assert l.word == sh.nodes[pc.node].word && l.Leaf? == sh.nodes[pc.node].Leaf? by {
      SplitForOk(sh.nodes[pc.node], op);
    }
    SplitChanges(sh, pc, op, c);
  }

  lemma SplitChanges(sh: Shared, pc: Pc, op: Op, c: Choice)
    requires pc.SplitReady? && pc.node in sh.nodes && PageOk(sh.nodes[pc.node]) && 2 <= |sh.nodes[pc.node].keys|
    requires pc.parent.Parent? ==>
               pc.parent.id in sh.nodes && sh.nodes[pc.parent.id].Inner? && PageOk(sh.nodes[pc.parent.id])
    requires ThreadInv(sh, op, pc) && c.id !in sh.nodes && c.id2 !in sh.nodes
    requires var l := SplitFor(sh.nodes[pc.node], op).left;
             l.word == sh.nodes[pc.node].word && l.Leaf? == sh.nodes[pc.node].Leaf?
    ensures Evolves(sh, DoSplit(sh, pc.parent, pc.node, op, c), Owns(pc))
  {
    hide SplitFor, PageOk;
  }

  /** The abstract effect of an insert or a removal. */
  ghost predicate Effect(sh: Shared, sh': Shared, op: Op) {
    match op
    case InsertOp(k, v) => Adds(sh, sh', k, v)
    case RemoveOp(k) => Removes(sh, sh', k)
    case LookupOp(_) => SameMap(sh, sh')
  }

  /** A writing step inserts or removes its key, and reports whether that made a difference. */
  lemma WriteStep(sh: Shared, op: Op, pc: Pc, c: Choice, sh': Shared, pc': Pc)
    requires TreeInv(sh) && ThreadInv(sh, op, pc) && Step(sh, op, pc, c, sh', pc') && Writes(sh, pc)
    ensures !op.LookupOp? && TreeInv(sh') && Effect(sh, sh', op)
    ensures pc'.UnlockNode? && pc'.out == Return(op.InsertOp? == Get(sh, op.key).None?)
  {
    if pc.LeafReady? && op.InsertOp? {
      PutInLeafOk(sh, pc.node, op.key, op.val);
    } else if pc.LeafReady? {
      CutFromLeafOk(sh, pc.node, op.key);
    } else {
      DoSplitOk(sh, pc.parent, pc.node, op, c);
    }
    GetIs(sh, pc.node, op.key);
  }

  /** Every other step leaves the abstract map alone. */
  lemma SilentStep(sh: Shared, op: Op, pc: Pc, c: Choice, sh': Shared, pc': Pc)
    requires TreeInv(sh) && ThreadInv(sh, op, pc) && Step(sh, op, pc, c, sh', pc') && !Writes(sh, pc)
    ensures TreeInv(sh') && SameMap(sh, sh')
  {
    if pc.SplitReady? {
      DoSplitOk(sh, pc.parent, pc.node, op, c);
    } else {
      StepKind(sh, op, pc, c, sh', pc');
      if sh' != sh {
        var id :| LockStep(sh, pc, sh', id);
        BumpOk(sh, id);
      }
    }
  }

  lemma StepEvolves(sh: Shared, op: Op, pc: Pc, c: Choice, sh': Shared, pc': Pc)
    requires TreeInv(sh) && ThreadInv(sh, op, pc) && Step(sh, op, pc, c, sh', pc')
    ensures Evolves(sh, sh', Owns(pc))
  {
    if pc.SplitReady? {
      SplitEvolves(sh, op, pc, c);
    } else if pc.LeafReady? {
      LeafEvolves(sh, op, pc, c, sh', pc');
    } else {
      StepKind(sh, op, pc, c, sh', pc');
      LockEvolves(sh, pc, sh');
    }
  }

  lemma LeafEvolves(sh: Shared, op: Op, pc: Pc, c: Choice, sh': Shared, pc': Pc)
    requires pc.LeafReady? && ThreadInv(sh, op, pc) && Step(sh, op, pc, c, sh', pc')
    ensures Evolves(sh, sh', Owns(pc))
  {
  }

  lemma LockEvolves(sh: Shared, pc: Pc, sh': Shared)
    requires sh' == sh || exists id :: LockStep(sh, pc, sh', id)
    ensures Evolves(sh, sh', Owns(pc))
  {
  }

  /** A parent that still has the version read for it routes the key to a page covering the key. */
  lemma ParentValid(sh: Shared, op: Op, parent: Link, node: nat)
    requires TreeInv(sh) && LinkInv(sh, op, parent, node)
    requires parent.Parent? && HasVersion(sh, parent.id, parent.ver)
    ensures node in sh.nodes && Covers(sh.nodes[node], op.key)
  {
    var p := sh.nodes[parent.id];
    var i := LowerBound(p.keys, op.key);
    assert SlotOk(sh, parent.id, i);
    RouteCovers(p, op.key);
  }

  lemma PastParentOk(sh: Shared, op: Op, parent: Link, node: nat, vn: nat)
    requires TreeInv(sh) && LinkInv(sh, op, parent, node) && node in sh.nodes
    requires parent.NoParent? ==> CoversIf(sh, op, node, vn)
    requires parent.Parent? ==> HasVersion(sh, parent.id, parent.ver)
    ensures CoversIf(sh, op, node, vn)
    ensures HasVersion(sh, node, vn) && sh.nodes[node].Leaf? ==> Get(sh, op.key) == LeafGet(sh.nodes[node], op.key)
  {
    if parent.Parent? { ParentValid(sh, op, parent, node); }
    if Covers(sh.nodes[node], op.key) && sh.nodes[node].Leaf? { GetIs(sh, node, op.key); }
  }

  predicate Descending(pc: Pc) {
    || pc.Start? || pc.RootLoaded? || pc.RootRead? || pc.Top? || pc.NotFull? || pc.Inside?
    || pc.ChildRead? || pc.ChildOk?
  }

  lemma StepRoot(sh: Shared, op: Op, pc: Pc, c: Choice, sh': Shared, pc': Pc)
    requires TreeInv(sh) && ThreadInv(sh, op, pc) && Step(sh, op, pc, c, sh', pc')
    requires pc.Start? || pc.RootLoaded? || pc.RootRead?
    ensures ThreadInv(sh', op, pc')
  {
  }

  lemma StepTop(sh: Shared, op: Op, pc: Pc, c: Choice, sh': Shared, pc': Pc)
    requires TreeInv(sh) && ThreadInv(sh, op, pc) && Step(sh, op, pc, c, sh', pc')
    requires pc.Top?
    ensures ThreadInv(sh', op, pc')
  {
    if sh.nodes[pc.node].Inner? {
      TopInner(sh, op, pc, c, sh', pc');
    } else {
      TopLeaf(sh, op, pc, c, sh', pc');
    }
    hide TreeInv, ThreadInv, Step;
  }

  lemma TopInner(sh: Shared, op: Op, pc: Pc, c: Choice, sh': Shared, pc': Pc)
    requires TreeInv(sh) && ThreadInv(sh, op, pc) && Step(sh, op, pc, c, sh', pc')
    requires pc.Top? && sh.nodes[pc.node].Inner?
    ensures ThreadInv(sh', op, pc')
  {
    if PastParent(sh, pc.parent, pc) == pc {
      PastParentOk(sh, op, pc.parent, pc.node, pc.vn);
    }
    hide TreeInv;
  }

  lemma TopLeaf(sh: Shared, op: Op, pc: Pc, c: Choice, sh': Shared, pc': Pc)
    requires TreeInv(sh) && ThreadInv(sh, op, pc) && Step(sh, op, pc, c, sh', pc')
    requires pc.Top? && sh.nodes[pc.node].Leaf?
    ensures ThreadInv(sh', op, pc')
  {
    if PastParent(sh, pc.parent, pc) == pc {
      PastParentOk(sh, op, pc.parent, pc.node, pc.vn);
    }
    hide TreeInv;
  }

  lemma StepInside(sh: Shared, op: Op, pc: Pc, c: Choice, sh': Shared, pc': Pc)
    requires TreeInv(sh) && ThreadInv(sh, op, pc) && Step(sh, op, pc, c, sh', pc')
    requires pc.NotFull? || pc.Inside?
    ensures ThreadInv(sh', op, pc')
  {
    if pc.NotFull? && PastParent(sh, pc.parent, pc) == pc {
      PastParentOk(sh, op, pc.parent, pc.node, pc.vn);
    }
  }

  lemma StepChild(sh: Shared, op: Op, pc: Pc, c: Choice, sh': Shared, pc': Pc)
    requires TreeInv(sh) && ThreadInv(sh, op, pc) && Step(sh, op, pc, c, sh', pc')
    requires pc.ChildRead? || pc.ChildOk?
    ensures ThreadInv(sh', op, pc')
  {
    if pc.ChildRead? && HasVersion(sh, pc.node, pc.vn) {
      ParentValid(sh, op, Parent(pc.node, pc.vn), pc.child);
    }
  }

  lemma StepRead(sh: Shared, op: Op, pc: Pc, c: Choice, sh': Shared, pc': Pc)
    requires TreeInv(sh) && ThreadInv(sh, op, pc) && Step(sh, op, pc, c, sh', pc')
    requires pc.LeafChecked? || pc.LeafRead? || pc.ParentOk?
    ensures ThreadInv(sh', op, pc')
  {
    if pc.LeafRead? && PastParent(sh, pc.parent, pc) == pc {
      PastParentOk(sh, op, pc.parent, pc.node, pc.vn);
    }
  }

  lemma StepWantLeaf(sh: Shared, op: Op, pc: Pc, c: Choice, sh': Shared, pc': Pc)
    requires TreeInv(sh) && ThreadInv(sh, op, pc) && Step(sh, op, pc, c, sh', pc')
    requires pc.InsLeaf? || pc.WantLeaf?
    ensures ThreadInv(sh', op, pc')
  {
    if pc.WantLeaf? && HasVersion(sh, pc.node, pc.vn) {
      LinkAfterLock(sh, op, pc.parent, pc.node, pc.node);
    }
  }

  /** Locking a page takes nothing from what is known of a link. */
  lemma LinkAfterLock(sh: Shared, op: Op, parent: Link, node: nat, id: nat)
    requires LinkInv(sh, op, parent, node) && id in sh.nodes && sh.nodes[id].word % 2 == 0
    ensures LinkInv(Bump(sh, id), op, parent, node)
  {
  }

  lemma StepLeafLocked(sh: Shared, op: Op, pc: Pc, c: Choice, sh': Shared, pc': Pc)
    requires TreeInv(sh) && ThreadInv(sh, op, pc) && Step(sh, op, pc, c, sh', pc')
    requires pc.LeafLocked?
    ensures ThreadInv(sh', op, pc')
  {
    if pc.parent.Parent? && HasVersion(sh, pc.parent.id, pc.parent.ver) {
      ParentValid(sh, op, pc.parent, pc.node);
    }
  }

  lemma StepWantSplit(sh: Shared, op: Op, pc: Pc, c: Choice, sh': Shared, pc': Pc)
    requires TreeInv(sh) && ThreadInv(sh, op, pc) && Step(sh, op, pc, c, sh', pc')
    requires pc.WantSplit?
    ensures ThreadInv(sh', op, pc')
  {
  }

  lemma StepParentLocked(sh: Shared, op: Op, pc: Pc, c: Choice, sh': Shared, pc': Pc)
    requires TreeInv(sh) && ThreadInv(sh, op, pc) && Step(sh, op, pc, c, sh', pc')
    requires pc.ParentLocked?
    ensures ThreadInv(sh', op, pc')
  {
    hide TreeInv;
  }

  lemma StepBothLocked(sh: Shared, op: Op, pc: Pc, c: Choice, sh': Shared, pc': Pc)
    requires TreeInv(sh) && ThreadInv(sh, op, pc) && Step(sh, op, pc, c, sh', pc')
    requires pc.BothLocked?
    ensures ThreadInv(sh', op, pc')
  {
    hide TreeInv;
  }

  lemma StepLeafReady(sh: Shared, op: Op, pc: Pc, c: Choice, sh': Shared, pc': Pc)
    requires TreeInv(sh) && ThreadInv(sh, op, pc) && Step(sh, op, pc, c, sh', pc')
    requires pc.LeafReady?
    ensures ThreadInv(sh', op, pc')
  {
    LeafPutWord(sh.nodes[pc.node], op);
  }

  lemma LeafPutWord(n: Node, op: Op)
    requires n.Leaf? && PageOk(n)
    ensures op.InsertOp? ==> LeafPut(n, op.key, op.val).word == n.word
    ensures LeafCut(n, op.key).word == n.word
  {
  }

  lemma StepSplitReady(sh: Shared, op: Op, pc: Pc, c: Choice, sh': Shared, pc': Pc)
    requires TreeInv(sh) && ThreadInv(sh, op, pc) && Step(sh, op, pc, c, sh', pc')
    requires pc.SplitReady?
    ensures ThreadInv(sh', op, pc')
  {
    SplitFacts(sh, op, pc, c, sh', pc');
    hide TreeInv, ThreadInv, Step, SplitFor, DoSplit, PageOk;
    SplitReadyOk(sh, pc.parent, pc.node, op);
    SplitForOk(sh.nodes[pc.node], op);
    SplitWords(sh, pc.parent, pc.node, op, c);
    UnlockNodeInv(sh', op, pc');
  }

  lemma SplitFacts(sh: Shared, op: Op, pc: Pc, c: Choice, sh': Shared, pc': Pc)
    requires ThreadInv(sh, op, pc) && Step(sh, op, pc, c, sh', pc') && pc.SplitReady?
    ensures op.InsertOp? && pc.vn % 2 == 0 && HasVersion(sh, pc.node, pc.vn + 1) && Full(sh, sh.nodes[pc.node])
    ensures LinkLocked(sh, op, pc.parent, pc.node) && (pc.parent.NoParent? ==> sh.root == pc.node)
    ensures PageOk(sh.nodes[pc.node]) && 2 <= |sh.nodes[pc.node].keys|
    ensures pc.parent.Parent? ==> sh.nodes[pc.parent.id].Inner? && PageOk(sh.nodes[pc.parent.id])
    ensures c.id !in sh.nodes && c.id2 !in sh.nodes && c.id != c.id2 && sh' == DoSplit(sh, pc.parent, pc.node, op, c)
    ensures pc' == UnlockNode(pc.parent, pc.node, pc.vn, WriteOutcome(sh.nodes[pc.node], op))
  {
    hide PageOk, DoSplit, Full;
  }

  lemma UnlockNodeInv(sh: Shared, op: Op, pc: Pc)
    requires pc.UnlockNode? && !op.LookupOp? && pc.vn % 2 == 0 && HasVersion(sh, pc.node, pc.vn + 1)
    requires pc.parent.Parent? ==>
               pc.parent.id != pc.node && pc.parent.ver % 2 == 0 && HasVersion(sh, pc.parent.id, pc.parent.ver + 1)
    ensures ThreadInv(sh, op, pc)
  {
  }

  lemma SplitWords(sh: Shared, parent: Link, node: nat, op: Op, c: Choice)
    requires node in sh.nodes && PageOk(sh.nodes[node]) && 2 <= |sh.nodes[node].keys|
    requires parent.Parent? ==> parent.id in sh.nodes && sh.nodes[parent.id].Inner? && PageOk(sh.nodes[parent.id])
    requires parent.Parent? ==> parent.id != node
    requires c.id !in sh.nodes && c.id2 !in sh.nodes && SplitFor(sh.nodes[node], op).left.word == sh.nodes[node].word
    ensures HasVersion(DoSplit(sh, parent, node, op, c), node, sh.nodes[node].word)
    ensures parent.Parent? ==> HasVersion(DoSplit(sh, parent, node, op, c), parent.id, sh.nodes[parent.id].word)
  {
    hide SplitFor, PageOk;
  }

  lemma StepUnlock(sh: Shared, op: Op, pc: Pc, c: Choice, sh': Shared, pc': Pc)
    requires TreeInv(sh) && ThreadInv(sh, op, pc) && Step(sh, op, pc, c, sh', pc')
    requires pc.UnlockNode? || pc.UnlockParent?
    ensures ThreadInv(sh', op, pc')
  {
    hide TreeInv;
  }

  /** The thread that took the step is where its new position says. */
  lemma StepThread(sh: Shared, op: Op, pc: Pc, c: Choice, sh': Shared, pc': Pc)
    requires TreeInv(sh) && ThreadInv(sh, op, pc) && Step(sh, op, pc, c, sh', pc')
    ensures ThreadInv(sh', op, pc')
  {
    hide TreeInv, ThreadInv, Step;
    if pc.Start? || pc.RootLoaded? || pc.RootRead? {
      StepRoot(sh, op, pc, c, sh', pc');
    } else if pc.Top? {
      StepTop(sh, op, pc, c, sh', pc');
    } else if pc.NotFull? || pc.Inside? {
      StepInside(sh, op, pc, c, sh', pc');
    } else if pc.ChildRead? || pc.ChildOk? {
      StepChild(sh, op, pc, c, sh', pc');
    } else if pc.LeafChecked? || pc.LeafRead? || pc.ParentOk? {
      StepRead(sh, op, pc, c, sh', pc');
    } else {
      StepToWrite(sh, op, pc, c, sh', pc');
    }
  }

  lemma StepToWrite(sh: Shared, op: Op, pc: Pc, c: Choice, sh': Shared, pc': Pc)
    requires TreeInv(sh) && ThreadInv(sh, op, pc) && Step(sh, op, pc, c, sh', pc')
    requires !Descending(pc) && !pc.LeafChecked? && !pc.LeafRead? && !pc.ParentOk?
    ensures ThreadInv(sh', op, pc')
  {
    hide TreeInv, ThreadInv, Step;
    if pc.InsLeaf? || pc.WantLeaf? {
      StepWantLeaf(sh, op, pc, c, sh', pc');
    } else if pc.LeafLocked? {
      StepLeafLocked(sh, op, pc, c, sh', pc');
    } else if pc.LeafReady? {
      StepLeafReady(sh, op, pc, c, sh', pc');
    } else if pc.WantSplit? {
      StepWantSplit(sh, op, pc, c, sh', pc');
    } else if pc.ParentLocked? {
      StepParentLocked(sh, op, pc, c, sh', pc');
    } else if pc.BothLocked? {
      StepBothLocked(sh, op, pc, c, sh', pc');
    } else if pc.SplitReady? {
      StepSplitReady(sh, op, pc, c, sh', pc');
    } else if pc.UnlockNode? || pc.UnlockParent? {
      StepUnlock(sh, op, pc, c, sh', pc');
    } else {
      NoStep(sh, op, pc, c, sh', pc');
    }
  }

  lemma NoStep(sh: Shared, op: Op, pc: Pc, c: Choice, sh': Shared, pc': Pc)
    requires pc.Found? || pc.Written?
    ensures !Step(sh, op, pc, c, sh', pc')
  {
  }

  /** A thread acquires a page only while nobody has it locked. */
  lemma StepOwns(sh: Shared, op: Op, pc: Pc, c: Choice, sh': Shared, pc': Pc)
    requires ThreadInv(sh, op, pc) && Step(sh, op, pc, c, sh', pc')
    ensures forall id :: id in Owns(pc') ==> id in Owns(pc) || (id in sh.nodes && sh.nodes[id].word % 2 == 0)
  {
    if !pc.WantLeaf? && !pc.WantSplit? && !pc.ParentLocked? {
      hide ThreadInv, Step, Owns;
      NothingAcquired(sh, op, pc, c, sh', pc');
    }
  }

  lemma NothingAcquired(sh: Shared, op: Op, pc: Pc, c: Choice, sh': Shared, pc': Pc)
    requires Step(sh, op, pc, c, sh', pc') && !pc.WantLeaf? && !pc.WantSplit? && !pc.ParentLocked?
    ensures Owns(pc') <= Owns(pc)
  {
    hide DoSplit, WriteLeaf, Bump, PageOk, LeafGet, Get, Full, Child, WriteOutcome;
  }

  /**
   No guard of the machine hides a crash: in every reachable situation an unfinished thread can
   move, so each page it follows exists, each page it splits is full enough to be split, and
   each page it inserts into has room.
   */
  lemma NeverStuck(sh: Shared, op: Op, pc: Pc, fresh1: nat, fresh2: nat) returns (c: Choice, sh': Shared, pc': Pc)
    requires TreeInv(sh) && ThreadInv(sh, op, pc) && !pc.Found? && !pc.Written?
    requires fresh1 !in sh.nodes && fresh2 !in sh.nodes && fresh1 != fresh2
    ensures Step(sh, op, pc, c, sh', pc')
    ensures pc.LeafReady? && op.InsertOp? ==> |sh.nodes[pc.node].keys| < sh.leafMax
    ensures pc.SplitReady? && pc.parent.Parent? ==> |sh.nodes[pc.parent.id].keys| < sh.innerMax - 1
  {
    hide TreeInv, ThreadInv, Step;
    c, sh' := Choice(fresh1, fresh2, false, None), sh;
    if Descending(pc) {
      c, pc' := CanDescend(sh, op, pc, c);
    } else if pc.LeafChecked? || pc.LeafRead? || pc.ParentOk? || pc.InsLeaf? || pc.LeafLocked? || pc.BothLocked? {
      c, pc' := CanCheck(sh, op, pc, c);
    } else if pc.WantLeaf? || pc.WantSplit? || pc.ParentLocked? {
      sh', pc' := CanLock(sh, op, pc, c);
    } else {
      sh', pc' := CanWrite(sh, op, pc, c);
    }
  }

  lemma CanDescend(sh: Shared, op: Op, pc: Pc, c0: Choice) returns (c: Choice, pc': Pc)
    requires TreeInv(sh) && ThreadInv(sh, op, pc) && Descending(pc)
    ensures Step(sh, op, pc, c, sh, pc')
  {
    c := c0;
    match pc
    case Start => pc' := RootLoaded(sh.root);
    case RootLoaded(node) =>
      pc' := if sh.nodes[node].word % 2 == 1 then Start else RootRead(node, sh.nodes[node].word);
    case RootRead(node, vn) => pc' := if node != sh.root then Start else Top(NoParent, node, vn);
    case Top(parent, node, vn) =>
      c := c.(flag := Full(sh, sh.nodes[node]));
      pc' := if sh.nodes[node].Inner? then
               if !op.InsertOp? then PastParent(sh, parent, Inside(node, vn))
               else if c.flag then WantSplit(parent, node, vn) else NotFull(parent, node, vn)
             else if op.LookupOp? then
               if sh.nodes[node].word == vn then LeafChecked(parent, node, vn) else Start
             else if op.RemoveOp? then WantLeaf(parent, node, vn)
             else PastParent(sh, parent, InsLeaf(parent, node, vn));
    case NotFull(parent, node, vn) => pc' := PastParent(sh, parent, Inside(node, vn));
    case Inside(node, vn) =>
      c := c.(id := Child(sh.nodes[node], op.key));
      pc' := ChildRead(node, vn, c.id);
    case ChildRead(node, vn, child) => pc' := if HasVersion(sh, node, vn) then ChildOk(node, vn, child) else Start;
    case ChildOk(node, vn, child) =>
      pc' := if sh.nodes[child].word % 2 == 1 then Start else Top(Parent(node, vn), child, sh.nodes[child].word);
  }

  lemma CanCheck(sh: Shared, op: Op, pc: Pc, c0: Choice) returns (c: Choice, pc': Pc)
    requires TreeInv(sh) && ThreadInv(sh, op, pc)
    requires pc.LeafChecked? || pc.LeafRead? || pc.ParentOk? || pc.InsLeaf? || pc.LeafLocked? || pc.BothLocked?
    ensures Step(sh, op, pc, c, sh, pc')
  {
    c := c0;
    match pc
    case LeafChecked(parent, node, vn) =>
      c := c.(res := LeafGet(sh.nodes[node], op.key));
      pc' := LeafRead(parent, node, vn, c.res);
    case LeafRead(parent, node, vn, res) =>
      pc' := PastParent(sh, parent, ParentOk(node, vn, res, Get(sh, op.key)));
    case ParentOk(node, vn, res, seen) => pc' := if HasVersion(sh, node, vn) then Found(res, seen) else Start;
    case InsLeaf(parent, node, vn) =>
      c := c.(flag := Full(sh, sh.nodes[node]));
      pc' := if c.flag then WantSplit(parent, node, vn) else WantLeaf(parent, node, vn);
    case LeafLocked(parent, node, vn) =>
      pc' := if parent.Parent? && !HasVersion(sh, parent.id, parent.ver)
             then UnlockNode(NoParent, node, vn, Restart) else LeafReady(node, vn);
    case BothLocked(parent, node, vn) =>
      pc' := if parent.NoParent? && node != sh.root
             then UnlockNode(NoParent, node, vn, Restart) else SplitReady(parent, node, vn);
  }

  lemma CanLock(sh: Shared, op: Op, pc: Pc, c: Choice) returns (sh': Shared, pc': Pc)
    requires ThreadInv(sh, op, pc) && (pc.WantLeaf? || pc.WantSplit? || pc.ParentLocked?)
    ensures Step(sh, op, pc, c, sh', pc')
  {
    sh', pc' := sh, Start;
    match pc
    case WantLeaf(parent, node, vn) =>
      if HasVersion(sh, node, vn) { sh', pc' := Bump(sh, node), LeafLocked(parent, node, vn); }
    case WantSplit(parent, node, vn) =>
      if parent.Parent? && HasVersion(sh, parent.id, parent.ver) {
        sh', pc' := Bump(sh, parent.id), ParentLocked(parent.id, parent.ver, node, vn);
      } else if parent.NoParent? && HasVersion(sh, node, vn) {
        sh', pc' := Bump(sh, node), BothLocked(NoParent, node, vn);
      }
    case ParentLocked(pid, vp, node, vn) =>
      if HasVersion(sh, node, vn) { sh', pc' := Bump(sh, node), BothLocked(Parent(pid, vp), node, vn); }
      else { pc' := UnlockParent(pid, vp, Restart); }
  }

  lemma CanWrite(sh: Shared, op: Op, pc: Pc, c: Choice) returns (sh': Shared, pc': Pc)
    requires TreeInv(sh) && ThreadInv(sh, op, pc)
    requires pc.LeafReady? || pc.SplitReady? || pc.UnlockNode? || pc.UnlockParent?
    requires c.id !in sh.nodes && c.id2 !in sh.nodes && c.id != c.id2
    ensures Step(sh, op, pc, c, sh', pc')
    ensures pc.LeafReady? && op.InsertOp? ==> |sh.nodes[pc.node].keys| < sh.leafMax
    ensures pc.SplitReady? && pc.parent.Parent? ==> |sh.nodes[pc.parent.id].keys| < sh.innerMax - 1
  {
    match pc
    case LeafReady(node, vn) =>
      sh' := WriteLeaf(sh, node, op);
      pc' := UnlockNode(NoParent, node, vn, WriteOutcome(sh.nodes[node], op));
    case SplitReady(parent, node, vn) =>
      SplitReadyOk(sh, parent, node, op);
      sh', pc' := DoSplit(sh, parent, node, op, c), UnlockNode(parent, node, vn, WriteOutcome(sh.nodes[node], op));
    case UnlockNode(parent, node, vn, out) =>
      sh' := Bump(sh, node);
      pc' := if parent.Parent? then UnlockParent(parent.id, parent.ver, out) else AfterUnlock(out);
    case UnlockParent(pid, vp, out) =>
      sh', pc' := Bump(sh, pid), AfterUnlock(out);
  }

  // ---------------------------------------------------------------------------------------
  // All steps, all runs
  // ---------------------------------------------------------------------------------------

  lemma InitInv(s: State)
    requires Init(s)
    ensures Inv(s)
  {
    var n := s.sh.nodes[s.sh.root];
    assert PageOk(n);
    forall k ensures Get(s.sh, k) == None {
      assert LeafFor(s.sh, s.sh.root, k);
      LeafGetNone(n, k);
    }
  }

  lemma ReplayOne(log: seq<Commit>, e: Commit)
    ensures Replay(log + [e]) == Apply(Replay(log), e.op)
  {
    assert (log + [e])[..|log|] == log;
  }

  lemma RunThreads(s: State, s': State, t: nat, c: Choice)
    requires Inv(s) && Runs(s, s', t, c)
    ensures ThreadsOk(s') && LocksApart(s')
  {
    hide Step, TreeInv, ThreadInv, Evolves, Owns, LogOk, Writes, AfterWrite;
    var th, th' := s.threads[t], s'.threads[t];
    assert ThreadInv(s.sh, th.op, th.pc);
    StepThread(s.sh, th.op, th.pc, c, s'.sh, th'.pc);
    StepEvolves(s.sh, th.op, th.pc, c, s'.sh, th'.pc);
    CommitCount(s.sh, th.op, th.pc, c, s'.sh, th'.pc);
    OwnsLocked(s.sh, th.op, th.pc);
    forall u | u in s.threads && u != t
      ensures ThreadInv(s'.sh, s.threads[u].op, s.threads[u].pc)
      ensures Owns(th'.pc) !! Owns(s.threads[u].pc)
    {
      OwnersApart(s, s', t, u, c);
      ThreadFrame(s.sh, s'.sh, Owns(th.pc), s.threads[u].op, s.threads[u].pc);
    }
  }

  lemma OwnersApart(s: State, s': State, t: nat, u: nat, c: Choice)
    requires Inv(s) && Runs(s, s', t, c) && u in s.threads && u != t
    ensures Owns(s'.threads[t].pc) !! Owns(s.threads[u].pc) && Owns(s.threads[u].pc) !! Owns(s.threads[t].pc)
  {
    hide Step, TreeInv, ThreadInv, Owns, LogOk;
    var th, th' := s.threads[t], s'.threads[t];
    StepOwns(s.sh, th.op, th.pc, c, s'.sh, th'.pc);
    OwnsLocked(s.sh, s.threads[u].op, s.threads[u].pc);
  }

  /** A thread writes at most once, and is past its write exactly when it has written. */
  lemma CommitCount(sh: Shared, op: Op, pc: Pc, c: Choice, sh': Shared, pc': Pc)
    requires ThreadInv(sh, op, pc) && Step(sh, op, pc, c, sh', pc')
    ensures Writes(sh, pc) ==> !op.LookupOp? && AfterWrite(pc') && !AfterWrite(pc)
    ensures !Writes(sh, pc) ==> AfterWrite(pc') == AfterWrite(pc)
  {
    hide Step, ThreadInv;
    if Descending(pc) {
      BeforeLeaf(sh, op, pc, c, sh', pc');
    } else if pc.LeafReady? || pc.SplitReady? {
      AtWrite(sh, op, pc, c, sh', pc');
    } else if pc.UnlockNode? || pc.UnlockParent? {
      PastWrite(sh, op, pc, c, sh', pc');
    } else {
      BeforeWrite(sh, op, pc, c, sh', pc');
    }
  }

  lemma PastWrite(sh: Shared, op: Op, pc: Pc, c: Choice, sh': Shared, pc': Pc)
    requires Step(sh, op, pc, c, sh', pc') && (pc.UnlockNode? || pc.UnlockParent?)
    ensures AfterWrite(pc') == AfterWrite(pc) && (AfterWrite(pc) ==> Told(pc') == Told(pc)) && !pc'.Found?
  {
    hide Bump;
  }

  lemma AtWrite(sh: Shared, op: Op, pc: Pc, c: Choice, sh': Shared, pc': Pc)
    requires ThreadInv(sh, op, pc) && Step(sh, op, pc, c, sh', pc') && (pc.LeafReady? || pc.SplitReady?)
    ensures Writes(sh, pc) ==> !op.LookupOp? && AfterWrite(pc') && !AfterWrite(pc)
    ensures !Writes(sh, pc) ==> AfterWrite(pc') == AfterWrite(pc)
  {
    hide DoSplit, WriteLeaf, Bump, PageOk, LeafGet, Get, Full, Child, Covers;
  }

  lemma BeforeWrite(sh: Shared, op: Op, pc: Pc, c: Choice, sh': Shared, pc': Pc)
    requires Step(sh, op, pc, c, sh', pc') && !Descending(pc)
    requires !pc.LeafReady? && !pc.SplitReady? && !pc.UnlockNode? && !pc.UnlockParent?
    ensures !Writes(sh, pc) && !AfterWrite(pc') && !AfterWrite(pc)
  {
    hide Bump, PageOk, LeafGet, Get, Full, HasVersion;
  }

  lemma BeforeLeaf(sh: Shared, op: Op, pc: Pc, c: Choice, sh': Shared, pc': Pc)
    requires Step(sh, op, pc, c, sh', pc') && Descending(pc)
    ensures Descending(pc') || pc'.LeafChecked? || pc'.InsLeaf? || pc'.WantLeaf? || pc'.WantSplit?
  {
  }

  /** One more commit in the log replays to the map after its operation. */
  lemma LogGrows(s: State, s': State, e: Commit)
    requires LogOk(s) && s'.log == s.log + [e] && Effect(s.sh, s'.sh, e.op)
    requires e.changed == (e.op.InsertOp? == Get(s.sh, e.op.key).None?)
    ensures LogOk(s')
  {
    hide Get;
    ReplayOne(s.log, e);
    assert Get(s.sh, e.op.key) == MapGet(Replay(s.log), e.op.key);
    forall k ensures Get(s'.sh, k) == MapGet(Replay(s'.log), k) {
      assert Get(s.sh, k) == MapGet(Replay(s.log), k);
    }
    forall i | 0 <= i < |s'.log| ensures s'.log[i].changed == Changes(Replay(s'.log[..i]), s'.log[i].op) {
      assert i < |s.log| ==> s'.log[..i] == s.log[..i];
      assert i == |s.log| ==> s'.log[..i] == s.log;
    }
  }

  lemma RunLog(s: State, s': State, t: nat, c: Choice)
    requires Inv(s) && Runs(s, s', t, c)
    ensures TreeInv(s'.sh) && LogOk(s')
  {
    hide Step, TreeInv, ThreadInv, Get, Effect;
    var th, th' := s.threads[t], s'.threads[t];
    if Writes(s.sh, th.pc) {
      WriteStep(s.sh, th.op, th.pc, c, s'.sh, th'.pc);
      LogGrows(s, s', Commit(t, th.op, th'.pc.out.changed));
    } else {
      SilentStep(s.sh, th.op, th.pc, c, s'.sh, th'.pc);
      forall k ensures Get(s'.sh, k) == MapGet(Replay(s'.log), k) {
        assert Get(s.sh, k) == MapGet(Replay(s.log), k);
      }
    }
  }

  // ---------------------------------------------------------------------------------------
  // Answers
  // ---------------------------------------------------------------------------------------

  /** A lookup is done only when its version checks have all passed, and then has the current binding. */
  lemma FoundStep(sh: Shared, op: Op, pc: Pc, c: Choice, sh': Shared, pc': Pc)
    requires TreeInv(sh) && ThreadInv(sh, op, pc) && Step(sh, op, pc, c, sh', pc') && pc'.Found?
    ensures !pc.Found? && pc'.res == pc'.seen == Get(sh, op.key)
  {
    if pc.ParentOk? {
      GetIs(sh, pc.node, op.key);
      hide TreeInv, Get;
    } else {
      hide TreeInv, Get, ThreadInv;
      NotFound(sh, op, pc, c, sh', pc');
    }
  }

  lemma NotFound(sh: Shared, op: Op, pc: Pc, c: Choice, sh': Shared, pc': Pc)
    requires Step(sh, op, pc, c, sh', pc') && !pc.ParentOk?
    ensures !pc'.Found?
  {
    hide DoSplit, WriteLeaf, Bump, PageOk, LeafGet, Get, Full, Child, WriteOutcome, HasVersion;
  }

  /** Past its write a thread goes on with the same report, whatever it still has to unlock. */
  lemma ReportStays(sh: Shared, op: Op, pc: Pc, c: Choice, sh': Shared, pc': Pc)
    requires ThreadInv(sh, op, pc) && Step(sh, op, pc, c, sh', pc') && AfterWrite(pc)
    ensures AfterWrite(pc') && Told(pc') == Told(pc) && !Writes(sh, pc) && !pc'.Found?
  {
    hide ThreadInv, Step;
    if pc.Written? {
      NoStep(sh, op, pc, c, sh', pc');
    } else {
      PastWrite(sh, op, pc, c, sh', pc');
    }
  }

  lemma WriterAnswers(s: State, s': State, t: nat, c: Choice)
    requires Inv(s) && Runs(s, s', t, c)
    ensures AnswerOk(s', t)
  {
    hide Step, TreeInv, ThreadInv, LocksApart, Get, Effect, Changes, Apply;
    var th, th' := s.threads[t], s'.threads[t];
    assert ThreadInv(s.sh, th.op, th.pc) && AnswerOk(s, t);
    CommitCount(s.sh, th.op, th.pc, c, s'.sh, th'.pc);
    if AfterWrite(th.pc) {
      ReportStays(s.sh, th.op, th.pc, c, s'.sh, th'.pc);
    } else if th'.pc.Found? {
      FoundStep(s.sh, th.op, th.pc, c, s'.sh, th'.pc);
      assert Get(s.sh, th.op.key) == MapGet(Replay(s.log), th.op.key);
      assert s'.log[..|s.log|] == s.log;
    }
  }

  lemma OthersAnswer(s: State, s': State, t: nat, c: Choice, u: nat)
    requires Inv(s) && Runs(s, s', t, c) && u in s.threads && u != t
    ensures AnswerOk(s', u)
  {
    hide Step, TreeInv, ThreadInv, LocksApart, LogOk, Get;
    var th := s.threads[u];
    assert AnswerOk(s, u) && s.log <= s'.log;
    assert th.at <= |s.log| ==> s'.log[..th.at] == s.log[..th.at];
  }

  lemma CommitsAuthored(s: State, s': State, t: nat, c: Choice, i: nat)
    requires Inv(s) && Runs(s, s', t, c) && i < |s'.log|
    ensures Authored(s', i)
  {
    hide Step, TreeInv, ThreadInv, LocksApart, LogOk, Get;
    var th, th' := s.threads[t], s'.threads[t];
    assert ThreadInv(s.sh, th.op, th.pc);
    CommitCount(s.sh, th.op, th.pc, c, s'.sh, th'.pc);
    if i < |s.log| {
      assert Authored(s, i) && s'.log[i] == s.log[i];
      if s.log[i].thread == t {
        ReportStays(s.sh, th.op, th.pc, c, s'.sh, th'.pc);
      }
    }
  }

  lemma RunAnswers(s: State, s': State, t: nat, c: Choice)
    requires Inv(s) && Runs(s, s', t, c)
    ensures AnswersOk(s')
  {
    hide Inv, AnswerOk, Authored, Step;
    WriterAnswers(s, s', t, c);
    forall u | u in s.threads && u != t ensures AnswerOk(s', u) {
      OthersAnswer(s, s', t, c, u);
    }
    forall i | 0 <= i < |s'.log| ensures Authored(s', i) {
      CommitsAuthored(s, s', t, c, i);
    }
  }

  lemma SpawnInv(s: State, s': State, t: nat, op: Op)
    requires Inv(s) && Spawns(s, s', t, op)
    ensures Inv(s')
  {
    hide TreeInv, Get, Replay, AnswersOk;
    SpawnAnswers(s, s', t, op);
  }

  lemma SpawnAnswers(s: State, s': State, t: nat, op: Op)
    requires AnswersOk(s) && Spawns(s, s', t, op)
    ensures AnswersOk(s')
  {
    hide Replay;
    forall u | u in s.threads ensures AnswerOk(s', u) {
      assert AnswerOk(s, u);
    }
    forall i | 0 <= i < |s.log| ensures Authored(s', i) {
      assert Authored(s, i);
    }
  }

  lemma NextInv(s: State, s': State)
    requires Inv(s) && Next(s, s')
    ensures Inv(s')
  {
    if t, c :| Runs(s, s', t, c) {
      RunThreads(s, s', t, c);
      RunLog(s, s', t, c);
      RunAnswers(s, s', t, c);
      hide ThreadsOk, LocksApart, LogOk, AnswersOk, Runs;
    } else {
      var t, op :| Spawns(s, s', t, op);
      SpawnInv(s, s', t, op);
    }
  }

  ghost predicate IsRun(run: seq<State>) {
    && |run| > 0 && Init(run[0])
    && forall i :: 0 <= i < |run| - 1 ==> Next(run[i], run[i + 1])
  }

  lemma {:induction false} RunInv(run: seq<State>, i: nat)
    requires IsRun(run) && i < |run|
    ensures Inv(run[i])
  {
    if i == 0 {
      InitInv(run[0]);
    } else {
      RunInv(run, i - 1);
      assert Next(run[i - 1], run[i - 1 + 1]);
      NextInv(run[i - 1], run[i]);
    }
  }

  /**
   In every run the tree holds exactly the replay of the inserts and removals in the order of their
   writes, and each one that is past its write has written exactly once.
   */
  lemma TreeIsReplay(run: seq<State>, i: nat)
    requires IsRun(run) && i < |run|
    ensures forall k {:trigger Get(run[i].sh, k)} :: Get(run[i].sh, k) == MapGet(Replay(run[i].log), k)
    ensures forall j :: 0 <= j < |run[i].log| ==>
              run[i].log[j].changed == Changes(Replay(run[i].log[..j]), run[i].log[j].op)
    ensures forall t :: t in run[i].threads ==>
              run[i].threads[t].commits == if AfterWrite(run[i].threads[t].pc) then 1 else 0
  {
    RunInv(run, i);
  }

  /**
   Every finished operation answers as if it had been executed alone at one place of the log, between
   its start and its end: an insert or a removal where it stands in the log, whether it changes the map
   replayed so far, and a lookup what the map replayed so far binds its key to.
   */
  lemma AnswersAreReplayed(run: seq<State>, i: nat, t: nat)
    requires IsRun(run) && i < |run| && t in run[i].threads
    ensures var th, log := run[i].threads[t], run[i].log;
            && (th.pc.Written? ==>
                  && !th.op.LookupOp? && th.since <= th.at < |log|
                  && log[th.at].thread == t && log[th.at].op == th.op
                  && th.pc.changed == Changes(Replay(log[..th.at]), th.op))
            && (th.pc.Found? ==>
                  && th.op.LookupOp? && th.since <= th.at <= |log|
                  && th.pc.res == MapGet(Replay(log[..th.at]), th.op.key))
  {
    RunInv(run, i);
    assert ThreadInv(run[i].sh, run[i].threads[t].op, run[i].threads[t].pc) && AnswerOk(run[i], t);
  }

  /** Every entry of the log is the one write of one operation. */
  lemma OneCommitEach(run: seq<State>, i: nat, j: nat, k: nat)
    requires IsRun(run) && i < |run| && j < |run[i].log| && k < |run[i].log|
    ensures run[i].log[j].thread in run[i].threads
    ensures run[i].log[j].op == run[i].threads[run[i].log[j].thread].op
    ensures run[i].log[j].thread == run[i].log[k].thread ==> j == k
  {
    RunInv(run, i);
    assert Authored(run[i], j) && Authored(run[i], k) && AnswerOk(run[i], run[i].log[j].thread);
  }

  /** A thread's operation, the log length it started at and, once it is done, its answer do not change. */
  lemma BookkeepingStays(s: State, s': State, t: nat)
    requires Next(s, s') && t in s.threads
    ensures t in s'.threads && s'.threads[t].op == s.threads[t].op && s'.threads[t].since == s.threads[t].since
    ensures s.log <= s'.log && (s.threads[t].pc.Written? || s.threads[t].pc.Found? ==> s'.threads[t] == s.threads[t])
  {
    hide Writes;
    if u, c :| Runs(s, s', u, c) {
      if u == t && (s.threads[t].pc.Written? || s.threads[t].pc.Found?) {
        NoStep(s.sh, s.threads[t].op, s.threads[t].pc, c, s'.sh, s'.threads[t].pc);
      }
      hide Step;
    }
  }

  /**
   A lookup that passes all its version checks returns what the map binds its key to at that
   moment, and this is also what it was bound to when the lookup last validated the parent
   (or, where the leaf is the root, when it had read the leaf).
   */
  lemma LookupIsCurrent(run: seq<State>, i: nat, t: nat, c: Choice)
    requires IsRun(run) && i + 1 < |run| && Runs(run[i], run[i + 1], t, c) && run[i + 1].threads[t].pc.Found?
    ensures var key, pc := run[i].threads[t].op.key, run[i + 1].threads[t].pc;
            && pc.res == MapGet(Replay(run[i].log), key)
            && pc.res == MapGet(Replay(run[i + 1].log), key)
            && pc.seen == pc.res
  {
    RunInv(run, i);
    RunInv(run, i + 1);
    var th, th' := run[i].threads[t], run[i + 1].threads[t];
    assert ThreadInv(run[i].sh, th.op, th.pc);
    hide Step, ThreadInv, TreeInv;
    FoundStep(run[i].sh, th.op, th.pc, c, run[i + 1].sh, th'.pc);
    CommitCount(run[i].sh, th.op, th.pc, c, run[i + 1].sh, th'.pc);
  }
}
