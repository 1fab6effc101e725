/**
 Safety of epoch-based reclamation. As long as every store of a loaded epoch comes in time, a node is
 never freed while a thread that was in its critical region when the node was retired is still in that
 region, orphaned nodes included.
 */
module EbrProof {
  import opened Ebr

  // ---------------------------------------------------------------------------------------
  // What a step of one slot leaves true for the others
  // ---------------------------------------------------------------------------------------

  /** How a slot may change, as far as the guards of retired nodes are concerned. */
  ghost predicate Moves(b: Slot, b': Slot) {
    || b'.region == b.region + 1
    || (&& b'.region == b.region
        && (Mid(b'.pc) ==> Mid(b.pc))
        && (b'.pc.In? ==> Mid(b.pc) || (b.pc.In? && b'.entered == b.entered)))
  }

  /** Only slot `u` changed. */
  ghost predicate OnlySlot(s: State, s': State, u: nat) {
    && u in s'.slots && s'.slots == s.slots[u := s'.slots[u]]
    && (u in s.slots ==> Moves(s.slots[u], s'.slots[u]))
    && (u !in s.slots ==> s'.slots[u] == NEW_SLOT)
  }

  lemma GuardsFrame(s: State, s': State, u: nat, guards: set<Stay>, bound: nat)
    requires OnlySlot(s, s', u) && GuardsOk(s, guards, bound)
    ensures GuardsOk(s', guards, bound)
  {
    forall g | g in guards
      ensures && g.slot in s'.slots && g.region <= s'.slots[g.slot].region
              && (Mid(s'.slots[g.slot].pc) ==> g.region < s'.slots[g.slot].region)
              && (Present(s', g) ==> s'.slots[g.slot].entered <= bound + 1)
    {
      assert g.slot in s.slots;
      if g.slot != u {
        assert s'.slots[g.slot] == s.slots[g.slot];
        assert Present(s', g) ==> Present(s, g);
      } else {
        assert Present(s', g) ==> Present(s, g) && s'.slots[u].entered == s.slots[u].entered;
      }
    }
  }

  lemma ListsFrame(s: State, s': State, u: nat, b: Slot)
    requires OnlySlot(s, s', u) && ListsOk(s, b)
    ensures ListsOk(s', b)
  {
    forall e, n | 0 <= e < EPOCHS && n in b.lists[e] ensures GuardsOk(s', n.guards, n.bound) {
      GuardsFrame(s, s', u, n.guards, n.bound);
    }
  }

  lemma ExitingFrame(s: State, s': State, u: nat, b: Slot)
    requires OnlySlot(s, s', u) && ExitingOk(s, b)
    ensures ExitingOk(s', b)
  {
    if b.pc.Exiting? && |b.lists| == EPOCHS {
      forall n | n in AllNodes(b.lists) ensures GuardsOk(s', n.guards, b.pc.bound) {
        GuardsFrame(s, s', u, n.guards, b.pc.bound);
      }
    }
  }

  lemma OrphanFrame(s: State, s': State, u: nat, o: Orphan)
    requires OnlySlot(s, s', u) && OrphanOk(s, o) && s.age <= s'.age
    ensures OrphanOk(s', o)
  {
    forall n | n in o.nodes ensures GuardsOk(s', n.guards, o.bound) {
      GuardsFrame(s, s', u, n.guards, o.bound);
    }
  }

  /** A step in which the epoch stays: a slot's new epoch is not behind any scan that has passed it. */
  ghost predicate Gentle(s: State, s': State, u: nat) {
    && OnlySlot(s, s', u) && s'.age == s.age && s'.global == s.global
    && (Entered(s'.slots[u].pc) ==>
          || s'.slots[u].entered == s.age
          || (u in s.slots && Entered(s.slots[u].pc) && s.slots[u].entered <= s'.slots[u].entered)
          || NotPassed(s, u, s'.slots[u].entered))
  }

  /** Whoever has passed the block `u` is not ahead of the age `entered`. */
  ghost predicate NotPassed(s: State, u: nat, entered: nat) {
    forall w :: w in s.slots && Passed(s.slots[w], u) ==> s.slots[w].entered <= entered
  }

  lemma BlockFrame(s: State, s': State, u: nat, v: nat)
    requires Inv(s) && Gentle(s, s', u) && v in s.slots && v != u
    ensures BlockOk(s', s'.slots[v])
  {
    var b := s.slots[v];
    assert BlockOk(s, b);
    assert s'.slots[v] == b;
    forall w | w in s'.slots && Entered(s'.slots[w].pc) && Passed(b, w) ensures b.entered <= s'.slots[w].entered {
      assert w != u ==> s'.slots[w] == s.slots[w];
    }
  }

  ghost predicate SlotOk(s: State, b: Slot) {
    BlockOk(s, b) && ListsOk(s, b) && ExitingOk(s, b)
  }

  lemma GentleInv(s: State, s': State, u: nat)
    requires Inv(s) && Gentle(s, s', u) && SlotOk(s', s'.slots[u])
    requires forall o :: o in s'.orphans ==> o in s.orphans || OrphanOk(s', o)
    ensures Inv(s')
  {
    forall v | v in s'.slots ensures SlotOk(s', s'.slots[v]) {
      if v != u {
        BlockFrame(s, s', u, v);
        ListsFrame(s, s', u, s.slots[v]);
        ExitingFrame(s, s', u, s.slots[v]);
      }
    }
    forall o | o in s'.orphans ensures OrphanOk(s', o) {
      if o in s.orphans {
        OrphanFrame(s, s', u, o);
      }
    }
  }

  // ---------------------------------------------------------------------------------------
  // Entering
  // ---------------------------------------------------------------------------------------

  lemma NoNodes(b: Slot)
    requires |b.lists| == EPOCHS && AllNodes(b.lists) == {}
    ensures forall e, n :: 0 <= e < EPOCHS ==> n !in b.lists[e]
  {
    assert b.lists[0] <= AllNodes(b.lists) && b.lists[1] <= AllNodes(b.lists) && b.lists[2] <= AllNodes(b.lists);
  }

  lemma AcquireInv(s: State, s': State, u: nat)
    requires Inv(s) && Acquire(s, s', u)
    ensures Inv(s')
  {
    if u in s.slots {
      assert SlotOk(s, s.slots[u]);
      ListsFrame(s, s', u, s.slots[u]);
    }
    GentleInv(s, s', u);
  }

  /** Nodes in the list of the epoch a thread newly observes were retired three ages ago or more. */
  lemma OldEnough(bound: nat, entered: nat, age: nat)
    requires bound <= entered <= age && bound % EPOCHS == age % EPOCHS && entered % EPOCHS != age % EPOCHS
    ensures bound + EPOCHS <= age
  {
  }

  lemma FlagInv(s: State, s': State, u: nat)
    requires Inv(s) && Flag(s, s', u)
    ensures Inv(s')
  {
    assert SlotOk(s, s.slots[u]);
    ListsFrame(s, s', u, s.slots[u]);
    GentleInv(s, s', u);
  }

  lemma LoadInv(s: State, s': State, u: nat, attempt: bool)
    requires Inv(s) && Load(s, s', u, attempt)
    ensures Inv(s')
  {
    assert SlotOk(s, s.slots[u]);
    ListsFrame(s, s', u, s.slots[u]);
    assert ListsOk(s', s'.slots[u]);
    GentleInv(s, s', u);
  }

  lemma LagIs(s: State, epoch: nat)
    requires s.global == s.age % EPOCHS && s.age >= EPOCHS && epoch < EPOCHS
    ensures Lag(s, epoch) < EPOCHS && (s.age - Lag(s, epoch)) % EPOCHS == epoch
    ensures Lag(s, epoch) == 0 <==> epoch == s.global
    ensures Lag(s, epoch) == 1 <==> (epoch + 1) % EPOCHS == s.global
  {
  }

  /** Ages with the same epoch number are three apart or the same. */
  lemma Latest(s: State, epoch: nat, seen: nat)
    requires s.global == s.age % EPOCHS && s.age >= EPOCHS && epoch == seen % EPOCHS && seen <= s.age
    ensures seen <= s.age - Lag(s, epoch)
  {
  }

  lemma StoreLists(s: State, s': State, u: nat)
    requires Inv(s) && Store(s, s', u)
    ensures OnlySlot(s, s', u) && ListsOk(s', s'.slots[u])
  {
    var b, b' := s.slots[u], s'.slots[u];
    assert SlotOk(s, b);
    ListsFrame(s, s', u, b);
    Latest(s, b.pc.epoch, b.pc.seen);
    LagIs(s, b.pc.epoch);
    hide GuardsOk, OrphanOk, ExitingOk, Lag;
    forall e, n | 0 <= e < EPOCHS && n in b.lists[e]
      ensures n.bound <= b'.entered && (e == b'.pc.epoch ==> n.bound + EPOCHS <= b'.entered)
    {
      if e == b'.pc.epoch {
        if b.local == b.entered % EPOCHS {
          OldEnough(n.bound, b.entered, b'.entered);
        } else {
          NoNodes(b);
        }
      }
    }
  }

  lemma StoreInv(s: State, s': State, u: nat)
    requires Inv(s) && Store(s, s', u) && Timely(s, u)
    ensures Inv(s')
  {
    StoreLists(s, s', u);
    StoreBlock(s, s', u);
    hide BlockOk, ListsOk, OrphanOk, NotPassed;
    GentleInv(s, s', u);
  }

  lemma StoreBlock(s: State, s': State, u: nat)
    requires Inv(s) && Store(s, s', u) && Timely(s, u)
    ensures BlockOk(s', s'.slots[u]) && NotPassed(s, u, s'.slots[u].entered)
  {
    hide ListsOk, OrphanOk, ExitingOk, Lag;
    assert BlockOk(s, s.slots[u]);
    LagIs(s, s.slots[u].pc.epoch);
    forall w | w in s.slots && Passed(s.slots[w], u) ensures s.slots[w].entered <= s'.slots[u].entered {
      assert BlockOk(s, s.slots[w]);
    }
  }

  /** The condition is exact: any other store breaks the invariant. */
  lemma StoreKeepsInvIff(s: State, s': State, u: nat)
    requires Inv(s) && Store(s, s', u)
    ensures Inv(s') <==> Timely(s, u)
  {
    if Timely(s, u) {
      StoreInv(s, s', u);
    }
    if Inv(s') {
      StoreWasTimely(s, s', u);
    }
  }

  lemma StoreWasTimely(s: State, s': State, u: nat)
    requires Inv(s) && Store(s, s', u) && Inv(s')
    ensures Timely(s, u)
  {
    hide ListsOk, ExitingOk, OrphanOk, Lag;
    LagIs(s, s.slots[u].pc.epoch);
    assert BlockOk(s', s'.slots[u]);
    forall w | w in s.slots && Passed(s.slots[w], u) && s.slots[u].pc.epoch != s.global
      ensures s.slots[w].local != s.global
    {
      assert BlockOk(s, s.slots[w]) && s'.slots[w] == s.slots[w] && BlockOk(s', s'.slots[w]);
    }
  }

  // ---------------------------------------------------------------------------------------
  // Advancing the epoch
  // ---------------------------------------------------------------------------------------

  lemma NotBehind(mine: nat, theirs: nat, age: nat)
    requires mine <= age <= mine + 1 && theirs <= age <= theirs + 1
    requires theirs % EPOCHS != (mine % EPOCHS + EPOCHS - 1) % EPOCHS
    ensures mine <= theirs
  {
  }

  lemma BeginInv(s: State, s': State, u: nat)
    requires Inv(s) && Begin(s, s', u)
    ensures Inv(s')
  {
    assert SlotOk(s, s.slots[u]);
    ListsFrame(s, s', u, s.slots[u]);
    GentleInv(s, s', u);
  }

  lemma ScanFlagInv(s: State, s': State, u: nat, v: nat)
    requires Inv(s) && ScanFlag(s, s', u, v)
    ensures Inv(s')
  {
    var b, c := s.slots[u], s.slots[v];
    assert SlotOk(s, b) && BlockOk(s, c);
    ListsFrame(s, s', u, b);
    forall w | w in s'.slots && Entered(s'.slots[w].pc) && Passed(s'.slots[u], w)
      ensures b.entered <= s'.slots[w].entered
    {
      assert w != u ==> s'.slots[w] == s.slots[w];
    }
    GentleInv(s, s', u);
  }

  lemma ScanEpochInv(s: State, s': State, u: nat)
    requires Inv(s) && ScanEpoch(s, s', u)
    ensures Inv(s')
  {
    var b := s.slots[u];
    var v := b.pc.look.value;
    var c := s.slots[v];
    assert SlotOk(s, b) && BlockOk(s, c);
    ListsFrame(s, s', u, b);
    if s'.slots[u].pc.Scanning? {
      if Entered(c.pc) {
        NotBehind(b.entered, c.entered, s.age);
      }
      forall w | w in s'.slots && Entered(s'.slots[w].pc) && Passed(s'.slots[u], w)
        ensures b.entered <= s'.slots[w].entered
      {
        assert w != u ==> s'.slots[w] == s.slots[w];
      }
    }
    GentleInv(s, s', u);
  }

  lemma ScanDoneInv(s: State, s': State, u: nat)
    requires Inv(s) && ScanDone(s, s', u)
    ensures Inv(s')
  {
    var b := s.slots[u];
    assert SlotOk(s, b);
    ListsFrame(s, s', u, b);
    forall w | w in s'.slots && Entered(s'.slots[w].pc) && Passed(s'.slots[u], w)
      ensures b.entered <= s'.slots[w].entered
    {
      assert w != u ==> s'.slots[w] == s.slots[w];
      assert w in b.pc.toScan ==> w in b.pc.scanned;
    }
    GentleInv(s, s', u);
  }

  lemma CasLostInv(s: State, s': State, u: nat)
    requires Inv(s) && Cas(s, s', u) && s.global != s.slots[u].local
    ensures Inv(s')
  {
    assert SlotOk(s, s.slots[u]);
    ListsFrame(s, s', u, s.slots[u]);
    GentleInv(s, s', u);
  }

  /** The advance itself: nobody critical is left more than one age behind. */
  lemma AdvanceInv(s: State, s': State, u: nat)
    requires Inv(s) && Cas(s, s', u) && s.global == s.slots[u].local
    ensures Inv(s')
  {
    var b := s.slots[u];
    assert SlotOk(s, b);
    assert s.age == b.entered;
    forall v | v in s'.slots ensures SlotOk(s', s'.slots[v]) {
      assert SlotOk(s, s.slots[v]);
      ListsFrame(s, s', u, s.slots[v]);
      ExitingFrame(s, s', u, s.slots[v]);
      AdvanceBlock(s, s', u, v);
      assert v != u ==> s'.slots[v] == s.slots[v];
      hide GuardsOk, BlockOk, Stays;
    }
    forall o | o in s'.orphans ensures OrphanOk(s', o) {
      OrphanFrame(s, s', u, o);
    }
  }

  lemma AdvanceBlock(s: State, s': State, u: nat, v: nat)
    requires Inv(s) && Cas(s, s', u) && s.global == s.slots[u].local && v in s'.slots
    ensures BlockOk(s', s'.slots[v])
  {
    hide ListsOk, OrphanOk, ExitingOk;
    assert BlockOk(s, s.slots[v]) && BlockOk(s, s.slots[u]);
    forall w | w in s'.slots ensures w in s.slots && SameEpoch(s.slots[w], s'.slots[w]) {
    }
    assert v != u ==> s'.slots[v] == s.slots[v] && Passed(s.slots[u], v);
    hide Set;
    AgedBlock(s, s', v);
  }

  ghost predicate SameEpoch(b: Slot, b': Slot) {
    b'.entered == b.entered && Entered(b'.pc) == Entered(b.pc)
  }

  lemma AgedBlock(s: State, s': State, v: nat)
    requires s'.age == s.age + 1 && v in s.slots && v in s'.slots && BlockOk(s, s.slots[v])
    requires forall w :: w in s'.slots ==> w in s.slots && SameEpoch(s.slots[w], s'.slots[w])
    requires || (s'.slots[v] == s.slots[v] && (Entered(s.slots[v].pc) ==> s.age <= s.slots[v].entered))
             || (s'.slots[v] == s.slots[v].(pc := Adopting) && s.slots[v].pc.Casing? && s.age == s.slots[v].entered)
    ensures BlockOk(s', s'.slots[v])
  {
  }

  lemma AdoptedNodes(s: State, lists: seq<set<Node>>, e: nat, n: Node)
    requires |lists| == EPOCHS && e < EPOCHS && n in Adopted(lists, s.orphans)[e]
    requires forall o :: o in s.orphans ==> OrphanOk(s, o)
    ensures n in lists[e] || (n.bound % EPOCHS == e && n.bound < s.age && GuardsOk(s, n.guards, n.bound))
  {
    if n !in lists[e] {
      var o, m :| o in s.orphans && o.target == e && m in o.nodes && n == m.(bound := o.bound);
      assert OrphanOk(s, o);
    }
  }

  lemma AdoptInv(s: State, s': State, u: nat)
    requires Inv(s) && Adopt(s, s', u)
    ensures Inv(s')
  {
    var b := s.slots[u];
    assert SlotOk(s, b);
    forall e, n | 0 <= e < EPOCHS && n in s'.slots[u].lists[e]
      ensures n.bound % EPOCHS == e && n.bound <= b.entered && GuardsOk(s', n.guards, n.bound)
    {
      AdoptedNodes(s, b.lists, e, n);
      GuardsFrame(s, s', u, n.guards, n.bound);
    }
    GentleInv(s, s', u);
  }

  lemma PublishInv(s: State, s': State, u: nat)
    requires Inv(s) && Publish(s, s', u)
    ensures Inv(s')
  {
    var b, b' := s.slots[u], s'.slots[u];
    assert SlotOk(s, b);
    ListsFrame(s, s', u, b);
    assert b'.local == b'.entered % EPOCHS;
    forall e, n | 0 <= e < EPOCHS && n in b.lists[e]
      ensures n.bound <= b'.entered && (e == b'.pc.epoch ==> n.bound + EPOCHS <= b'.entered)
    {
      if e == b'.pc.epoch {
        OldEnough(n.bound, b.entered, b'.entered);
      }
    }
    assert ListsOk(s', b');
    GentleInv(s, s', u);
  }

  // ---------------------------------------------------------------------------------------
  // Freeing, staying, retiring, leaving
  // ---------------------------------------------------------------------------------------

  lemma FreeInv(s: State, s': State, u: nat, n: Node)
    requires Inv(s) && Free(s, s', u, n)
    ensures Inv(s')
  {
    var b, b' := s.slots[u], s'.slots[u];
    assert SlotOk(s, b);
    ListsFrame(s, s', u, b);
    assert forall e, m :: 0 <= e < EPOCHS && m in b'.lists[e] ==> m in b.lists[e];
    assert ListsOk(s', b');
    GentleInv(s, s', u);
  }

  /** A step of a thread that changes neither its lists nor its epoch. */
  ghost predicate Quiet(s: State, s': State, u: nat) {
    && u in s.slots && u in s'.slots && s' == Set(s, u, s'.slots[u]) && Moves(s.slots[u], s'.slots[u])
    && s'.slots[u].lists == s.slots[u].lists && s'.slots[u].entered == s.slots[u].entered
    && s'.slots[u].local == s.slots[u].local && !Mid(s'.slots[u].pc) && !s'.slots[u].pc.Exiting?
    && (s'.slots[u].pc.In? ==> Entered(s.slots[u].pc))
  }

  lemma QuietInv(s: State, s': State, u: nat)
    requires Inv(s) && Quiet(s, s', u) && BlockOk(s', s'.slots[u])
    ensures Inv(s')
  {
    assert SlotOk(s, s.slots[u]);
    ListsFrame(s, s', u, s.slots[u]);
    assert ListsOk(s', s'.slots[u]);
    hide BlockOk, ListsOk, OrphanOk;
    GentleInv(s, s', u);
  }

  lemma InsideBlock(s: State, s': State, u: nat)
    requires Inv(s) && (FreeDone(s, s', u) || Nest(s, s', u))
    ensures Quiet(s, s', u) && BlockOk(s', s'.slots[u])
  {
    hide ListsOk, OrphanOk, ExitingOk;
    assert BlockOk(s, s.slots[u]);
  }

  lemma LeaveBlock(s: State, s': State, u: nat)
    requires Inv(s) && Leave(s, s', u)
    ensures Quiet(s, s', u) && BlockOk(s', s'.slots[u])
  {
    hide ListsOk, OrphanOk, ExitingOk;
    assert BlockOk(s, s.slots[u]);
  }

  lemma ReleaseBlock(s: State, s': State, u: nat)
    requires Inv(s) && Release(s, s', u)
    ensures Quiet(s, s', u) && BlockOk(s', s'.slots[u])
  {
    hide ListsOk, OrphanOk, ExitingOk;
    assert BlockOk(s, s.slots[u]);
  }

  lemma RetireInv(s: State, s': State, u: nat, ptr: nat)
    requires Inv(s) && Retire(s, s', u, ptr)
    ensures Inv(s')
  {
    var b, b' := s.slots[u], s'.slots[u];
    assert SlotOk(s, b);
    ListsFrame(s, s', u, b);
    var n := Node(ptr, b.entered, Stays(s));
    forall g | g in n.guards
      ensures g.slot in s.slots && g.region == s.slots[g.slot].region && s.slots[g.slot].pc.In?
      ensures s.slots[g.slot].entered <= b.entered + 1
    {
      assert BlockOk(s, s.slots[g.slot]);
    }
    assert GuardsOk(s, n.guards, n.bound);
    GuardsFrame(s, s', u, n.guards, n.bound);
    forall e, m | 0 <= e < EPOCHS && m in b'.lists[e] ensures m in b.lists[e] || (m == n && e == b.local) {
    }
    assert ListsOk(s', b');
    GentleInv(s, s', u);
  }

  lemma ExitInv(s: State, s': State, u: nat)
    requires Inv(s) && Exit(s, s', u)
    ensures Inv(s')
  {
    var b, b' := s.slots[u], s'.slots[u];
    assert SlotOk(s, b);
    ListsFrame(s, s', u, b);
    ExitBlock(s, s', u);
    hide BlockOk, GuardsOk, OrphanOk;
    if b'.pc.Exiting? {
      forall n | n in AllNodes(b.lists) ensures GuardsOk(s', n.guards, b'.pc.bound) {
        var e :| 0 <= e < EPOCHS && n in b.lists[e];
        assert GuardsOk(s', n.guards, n.bound);
        GuardsByNow(s, s', u, n.guards, n.bound);
      }
    }
    GentleInv(s, s', u);
  }

  lemma ExitBlock(s: State, s': State, u: nat)
    requires Inv(s) && Exit(s, s', u)
    ensures BlockOk(s', s'.slots[u])
  {
    hide ListsOk, OrphanOk, ExitingOk;
    assert BlockOk(s, s.slots[u]);
  }

  /** Nobody has entered later than now. */
  lemma GuardsByNow(s: State, s': State, u: nat, guards: set<Stay>, bound: nat)
    requires Inv(s) && OnlySlot(s, s', u) && !s'.slots[u].pc.In? && GuardsOk(s', guards, bound)
    ensures GuardsOk(s', guards, s.age - 1)
  {
    forall g | g in guards && Present(s', g) ensures s'.slots[g.slot].entered <= s.age {
      assert s'.slots[g.slot] == s.slots[g.slot] && BlockOk(s, s.slots[g.slot]);
    }
  }

  lemma AbandonInv(s: State, s': State, u: nat)
    requires Inv(s) && Abandon(s, s', u)
    ensures Inv(s')
  {
    var b, b' := s.slots[u], s'.slots[u];
    assert SlotOk(s, b);
    var o := Orphan(b.pc.target, b.pc.bound, AllNodes(b.lists));
    assert OrphanOk(s, o);
    OrphanFrame(s, s', u, o);
    assert AllNodes(b'.lists) == {};
    assert SlotOk(s', b');
    hide SlotOk, OrphanOk;
    GentleInv(s, s', u);
  }

  /** If the step stores a loaded epoch, it comes in time. */
  ghost predicate InTime(s: State, s': State) {
    forall u :: Store(s, s', u) ==> Timely(s, u)
  }

  lemma NextInv(s: State, s': State)
    requires Inv(s) && Next(s, s') && InTime(s, s')
    ensures Inv(s')
  {
    var u :| SlotStep(s, s', u);
    if Acquire(s, s', u) { AcquireInv(s, s', u); }
    else if Flag(s, s', u) { FlagInv(s, s', u); }
    else if attempt :| Load(s, s', u, attempt) { LoadInv(s, s', u, attempt); }
    else if Store(s, s', u) { StoreInv(s, s', u); }
    else if Begin(s, s', u) { BeginInv(s, s', u); }
    else if v :| ScanFlag(s, s', u, v) { ScanFlagInv(s, s', u, v); }
    else if ScanEpoch(s, s', u) { ScanEpochInv(s, s', u); }
    else if ScanDone(s, s', u) { ScanDoneInv(s, s', u); }
    else if Cas(s, s', u) {
      if s.global == s.slots[u].local { AdvanceInv(s, s', u); } else { CasLostInv(s, s', u); }
    }
    else if Adopt(s, s', u) { AdoptInv(s, s', u); }
    else if Publish(s, s', u) { PublishInv(s, s', u); }
    else if n :| Free(s, s', u, n) { FreeInv(s, s', u, n); }
    else if ptr :| Retire(s, s', u, ptr) { RetireInv(s, s', u, ptr); }
    else if Exit(s, s', u) { ExitInv(s, s', u); }
    else if Abandon(s, s', u) { AbandonInv(s, s', u); }
    else {
      if FreeDone(s, s', u) || Nest(s, s', u) { InsideBlock(s, s', u); }
      else if Leave(s, s', u) { LeaveBlock(s, s', u); }
      else { ReleaseBlock(s, s', u); }
      QuietInv(s, s', u);
    }
  }

  // ---------------------------------------------------------------------------------------
  // All runs
  // ---------------------------------------------------------------------------------------

  ghost predicate IsRun(run: seq<State>) {
    && |run| > 0 && Init(run[0])
    && forall i :: 0 <= i < |run| - 1 ==> Next(run[i], run[i + 1])
  }

  /** A run in which every store of a loaded epoch comes in time. */
  ghost predicate TimelyRun(run: seq<State>) {
    IsRun(run) && forall i :: 0 <= i < |run| - 1 ==> InTime(run[i], run[i + 1])
  }

  lemma {:induction false} RunInv(run: seq<State>, i: nat)
    requires TimelyRun(run) && i < |run|
    ensures Inv(run[i])
  {
    if i > 0 {
      RunInv(run, i - 1);
      assert Next(run[i - 1], run[i - 1 + 1]) && InTime(run[i - 1], run[i - 1 + 1]);
      NextInv(run[i - 1], run[i]);
    }
  }

  /** Whoever frees a node, own or adopted, no stay that saw it retired is still under way. */
  lemma FreeIsSafe(run: seq<State>, i: nat, u: nat, n: Node)
    requires TimelyRun(run) && i + 1 < |run| && Free(run[i], run[i + 1], u, n)
    ensures forall g :: g in n.guards ==> !Present(run[i], g)
  {
    RunInv(run, i);
    FreeSafe(run[i], run[i + 1], u, n);
  }

  lemma FreeSafe(s: State, s': State, u: nat, n: Node)
    requires Inv(s) && Free(s, s', u, n)
    ensures forall g :: g in n.guards ==> !Present(s, g)
  {
    assert SlotOk(s, s.slots[u]);
    assert GuardsOk(s, n.guards, n.bound);
    assert forall v :: v in s.slots && s.slots[v].pc.In? ==> BlockOk(s, s.slots[v]);
  }

  /** A stay recorded with a node is one that was under way when the node was retired. */
  lemma GuardsAreStays(s: State, s': State, u: nat, ptr: nat)
    requires Retire(s, s', u, ptr)
    ensures exists n :: && n in s'.slots[u].lists[s.slots[u].local] && n.ptr == ptr
                        && forall g: Stay :: g in n.guards <==> Present(s, g)
  {
    var n := Node(ptr, s.slots[u].entered, Stays(s));
    assert n in s'.slots[u].lists[s.slots[u].local];
    forall g: Stay ensures g in n.guards <==> Present(s, g) {
    }
  }

  /** Threads in critical regions are at most one epoch behind, so three epoch numbers suffice. */
  lemma WithinOneEpoch(run: seq<State>, i: nat, u: nat)
    requires TimelyRun(run) && i < |run| && u in run[i].slots && Entered(run[i].slots[u].pc)
    ensures run[i].slots[u].local == run[i].global || run[i].slots[u].local == (run[i].global + EPOCHS - 1) % EPOCHS
  {
    RunInv(run, i);
    assert BlockOk(run[i], run[i].slots[u]);
  }
}
