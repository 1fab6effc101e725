/**
 No retired node is lost or freed twice: from its retirement until it is freed a node is in exactly one
 retire list or on the list of orphans, over every run, whether or not all stores come in time.
 */
module EbrHeld {
  import opened Options
  import opened Ebr
  import opened EbrProof

  /** A place of a retired node. */
  datatype Place = InList(u: nat, e: nat, n: Node) | InOrphan(o: Orphan, n: Node)

  ghost predicate At(s: State, w: Place) {
    match w
    case InList(u, e, n) =>
      u in s.slots && e < EPOCHS && |s.slots[u].lists| == EPOCHS && n in s.slots[u].lists[e]
    case InOrphan(o, n) => o in s.orphans && n in o.nodes
  }

  ghost predicate Held(s: State, ptr: nat) {
    exists w :: At(s, w) && w.n.ptr == ptr
  }

  ghost predicate HeldOnce(s: State) {
    forall w, x :: At(s, w) && At(s, x) && w.n.ptr == x.n.ptr ==> w == x
  }

  /** Numbers are epochs, every block has its three lists, and a scan is about blocks that exist. */
  ghost predicate Formed(s: State) {
    && s.global < EPOCHS && s.age >= EPOCHS
    && (forall u :: u in s.slots ==> BlockFormed(s.slots.Keys, s.slots[u]))
    && (forall o :: o in s.orphans ==> o.target < EPOCHS)
  }

  predicate BlockFormed(keys: set<nat>, b: Slot) {
    && |b.lists| == EPOCHS && b.local <= EPOCHS && (!b.inUse ==> b.pc.Out?)
    && (Entered(b.pc) ==> b.local < EPOCHS) && (b.pc.Storing? || b.pc.Freeing? ==> b.pc.epoch < EPOCHS)
    && (b.pc.Scanning? ==> b.pc.scanned <= b.pc.toScan <= keys)
    && (b.pc.Scanning? && b.pc.look.Some? ==> b.pc.look.value in b.pc.toScan - b.pc.scanned)
    && (b.pc.In? ==> b.pc.depth > 0) && (b.pc.Exiting? ==> b.pc.target < EPOCHS)
  }

  // ---------------------------------------------------------------------------------------
  // Where a step takes a node
  // ---------------------------------------------------------------------------------------

  /** A node adopted or abandoned by thread `u` changes its place; all others stay. */
  ghost function Goes(s: State, u: nat, w: Place): (x: Place)
    ensures x.n.ptr == w.n.ptr
  {
    if u !in s.slots then w
    else if s.slots[u].pc.Adopting? && w.InOrphan? then InList(u, w.o.target, w.n.(bound := w.o.bound))
    else if s.slots[u].pc.Exiting? && w.InList? && w.u == u && |s.slots[u].lists| == EPOCHS then
      InOrphan(Orphan(s.slots[u].pc.target, s.slots[u].pc.bound, AllNodes(s.slots[u].lists)), w.n)
    else w
  }

  /** Every node goes where `Goes` says, except those that are freed. */
  ghost predicate Forth(s: State, s': State, u: nat) {
    forall w :: At(s, w) ==> At(s', Goes(s, u, w)) || (w.InList? && w.u == u && Free(s, s', u, w.n))
  }

  ghost predicate CameFrom(s: State, u: nat, x: Place, w: Place) {
    At(s, w) && Goes(s, u, w) == x
  }

  /** Every node has come from somewhere, except the one that is retired. */
  ghost predicate Back(s: State, s': State, u: nat) {
    forall x :: At(s', x) ==> (exists w :: CameFrom(s, u, x, w)) || RetiredAt(s, s', u, x)
  }

  ghost predicate RetiredAt(s: State, s': State, u: nat, x: Place) {
    && Retire(s, s', u, x.n.ptr)
    && x == InList(u, s.slots[u].local, Node(x.n.ptr, s.slots[u].entered, Stays(s)))
  }

  /** Lists and orphans are as before; a new block has empty lists. */
  ghost predicate SameNodes(s: State, s': State, u: nat) {
    && u in s'.slots && s'.slots == s.slots[u := s'.slots[u]] && s'.orphans == s.orphans
    && s'.slots[u].lists == (if u in s.slots then s.slots[u].lists else EMPTY)
    && s'.global < EPOCHS && s'.age >= EPOCHS && BlockFormed(s'.slots.Keys, s'.slots[u])
  }

  /** The thread neither adopts nor abandons nodes. */
  predicate Keeping(s: State, u: nat) {
    u in s.slots ==> !s.slots[u].pc.Adopting? && !s.slots[u].pc.Exiting?
  }

  lemma SameMoves(s: State, s': State, u: nat)
    requires SameNodes(s, s', u) && Formed(s) && Keeping(s, u)
    ensures Forth(s, s', u) && Back(s, s', u) && Formed(s')
  {
    forall w ensures At(s', w) <==> At(s, w) {
    }
    forall x | At(s', x) ensures CameFrom(s, u, x, x) {
    }
  }

  lemma AdoptMoves(s: State, s': State, u: nat)
    requires Adopt(s, s', u) && Formed(s)
    ensures Forth(s, s', u) && Back(s, s', u) && Formed(s')
  {
    forall w | At(s, w) ensures At(s', Goes(s, u, w)) {
    }
    forall x | At(s', x) ensures exists w :: CameFrom(s, u, x, w) {
      if x.u == u && x.n !in s.slots[u].lists[x.e] {
        var o, n :| o in s.orphans && o.target == x.e && n in o.nodes && x.n == n.(bound := o.bound);
        assert CameFrom(s, u, x, InOrphan(o, n));
      } else {
        assert CameFrom(s, u, x, x);
      }
    }
  }

  lemma AbandonMoves(s: State, s': State, u: nat)
    requires Abandon(s, s', u) && Formed(s)
    ensures Forth(s, s', u) && Back(s, s', u) && Formed(s')
  {
    var b := s.slots[u];
    var o := Orphan(b.pc.target, b.pc.bound, AllNodes(b.lists));
    forall w | At(s, w) ensures At(s', Goes(s, u, w)) {
    }
    forall x | At(s', x) ensures exists w :: CameFrom(s, u, x, w) {
      if x.InOrphan? && x.o !in s.orphans {
        var e :| 0 <= e < EPOCHS && x.n in b.lists[e];
        assert CameFrom(s, u, x, InList(u, e, x.n));
      } else {
        assert CameFrom(s, u, x, x);
      }
    }
  }

  lemma FreeMoves(s: State, s': State, u: nat, n: Node)
    requires Free(s, s', u, n) && Formed(s)
    ensures Forth(s, s', u) && Back(s, s', u) && Formed(s')
  {
    forall w | At(s, w) ensures At(s', Goes(s, u, w)) || (w.InList? && w.u == u && Free(s, s', u, w.n)) {
    }
    forall x | At(s', x) ensures CameFrom(s, u, x, x) {
    }
  }

  lemma RetireMoves(s: State, s': State, u: nat, ptr: nat)
    requires Retire(s, s', u, ptr) && Formed(s)
    ensures Forth(s, s', u) && Back(s, s', u) && Formed(s')
  {
    hide Stays;
    forall w | At(s, w) ensures At(s', Goes(s, u, w)) {
    }
    forall x | At(s', x) ensures CameFrom(s, u, x, x) || RetiredAt(s, s', u, x) {
    }
  }

  ghost predicate MovesNodes(s: State, s': State, u: nat) {
    Adopt(s, s', u) || Abandon(s, s', u) || (exists n :: Free(s, s', u, n)) || (exists ptr :: Retire(s, s', u, ptr))
  }

  lemma OthersSame(s: State, s': State, u: nat)
    requires SlotStep(s, s', u) && !MovesNodes(s, s', u) && Formed(s)
    ensures SameNodes(s, s', u) && Keeping(s, u)
  {
    hide Stays, Lag, AllNodes, Adopted, SameNodes;
    if u in s.slots {
      assert BlockFormed(s.slots.Keys, s.slots[u]);
      hide Formed;
      var pc := s.slots[u].pc;
      if pc.Out? || pc.In? || pc.Releasing? {
        OutsideSame(s, s', u);
      } else if pc.Scanning? || pc.Attempting? {
        ScanSame(s, s', u);
      } else {
        EntrySame(s, s', u);
      }
    } else {
      assert Acquire(s, s', u);
      NewSame(s, s', u);
    }
    hide SlotStep;
  }

  lemma NewSame(s: State, s': State, u: nat)
    requires Acquire(s, s', u) && u !in s.slots && s.global < EPOCHS && s.age >= EPOCHS
    ensures SameNodes(s, s', u)
  {
  }

  lemma OutsideSame(s: State, s': State, u: nat)
    requires SlotStep(s, s', u) && !MovesNodes(s, s', u) && s.global < EPOCHS && s.age >= EPOCHS
    requires u in s.slots && (s.slots[u].pc.Out? || s.slots[u].pc.In? || s.slots[u].pc.Releasing?)
    requires BlockFormed(s.slots.Keys, s.slots[u])
    ensures SameNodes(s, s', u)
  {
    hide Stays, Lag, AllNodes, Adopted;
  }

  lemma ScanSame(s: State, s': State, u: nat)
    requires SlotStep(s, s', u) && !MovesNodes(s, s', u) && s.global < EPOCHS && s.age >= EPOCHS
    requires u in s.slots && (s.slots[u].pc.Scanning? || s.slots[u].pc.Attempting?)
    requires BlockFormed(s.slots.Keys, s.slots[u])
    ensures SameNodes(s, s', u)
  {
    hide Stays, Lag, AllNodes, Adopted;
  }

  lemma EntrySame(s: State, s': State, u: nat)
    requires SlotStep(s, s', u) && !MovesNodes(s, s', u) && s.global < EPOCHS && s.age >= EPOCHS && u in s.slots
    requires var pc := s.slots[u].pc;
             pc.Flagged? || pc.Storing? || pc.Casing? || pc.Adopting? || pc.Publishing? || pc.Freeing? || pc.Exiting?
    requires BlockFormed(s.slots.Keys, s.slots[u])
    ensures SameNodes(s, s', u) && Keeping(s, u)
  {
    hide Stays, Lag, AllNodes, Adopted;
  }

  lemma StepMoves(s: State, s': State, u: nat)
    requires SlotStep(s, s', u) && Formed(s)
    ensures Forth(s, s', u) && Back(s, s', u) && Formed(s')
  {
    hide Forth, Back, Formed, SameNodes, Stays;
    if Adopt(s, s', u) { AdoptMoves(s, s', u); }
    else if Abandon(s, s', u) { AbandonMoves(s, s', u); }
    else if n :| Free(s, s', u, n) { FreeMoves(s, s', u, n); }
    else if ptr :| Retire(s, s', u, ptr) { RetireMoves(s, s', u, ptr); }
    else {
      OthersSame(s, s', u);
      SameMoves(s, s', u);
    }
  }

  // ---------------------------------------------------------------------------------------
  // Over whole runs
  // ---------------------------------------------------------------------------------------

  ghost predicate Freed(s: State, s': State, ptr: nat) {
    exists u, n: Node :: Free(s, s', u, n) && n.ptr == ptr
  }

  ghost predicate Retired(s: State, s': State, ptr: nat) {
    exists u :: Retire(s, s', u, ptr)
  }

  /** Nobody retires a node that is retired already. */
  ghost predicate RetiredOnce(s: State, s': State) {
    forall ptr :: Retired(s, s', ptr) ==> !Held(s, ptr)
  }

  ghost predicate OnceRun(run: seq<State>) {
    IsRun(run) && forall i :: 0 <= i < |run| - 1 ==> RetiredOnce(run[i], run[i + 1])
  }

  lemma {:induction false} RunFormed(run: seq<State>, i: nat)
    requires IsRun(run) && i < |run|
    ensures Formed(run[i])
  {
    if i > 0 {
      RunFormed(run, i - 1);
      assert Next(run[i - 1], run[i - 1 + 1]);
      var u :| SlotStep(run[i - 1], run[i], u);
      StepMoves(run[i - 1], run[i], u);
    }
  }

  lemma RetireHolds(s: State, s': State, u: nat, ptr: nat)
    requires Retire(s, s', u, ptr)
    ensures Held(s', ptr)
  {
    hide Stays;
    assert At(s', InList(u, s.slots[u].local, Node(ptr, s.slots[u].entered, Stays(s))));
  }

  lemma Lost(s: State, s': State, u: nat, ptr: nat)
    requires Forth(s, s', u) && Held(s, ptr) && !Held(s', ptr)
    ensures Freed(s, s', ptr)
  {
    hide At, Free;
    var w :| At(s, w) && w.n.ptr == ptr;
    assert At(s', Goes(s, u, w)) || Free(s, s', u, w.n);
  }

  lemma Gained(s: State, s': State, u: nat, ptr: nat)
    requires Back(s, s', u) && !Held(s, ptr) && Held(s', ptr)
    ensures Retired(s, s', ptr)
  {
    hide At, Retire;
    var x :| At(s', x) && x.n.ptr == ptr;
    assert (exists w :: CameFrom(s, u, x, w)) || RetiredAt(s, s', u, x);
  }

  /** A node starts to be held only by being retired, and stops only by being freed. */
  lemma HeldChanges(s: State, s': State, ptr: nat)
    requires Next(s, s') && Formed(s)
    ensures Held(s, ptr) && !Held(s', ptr) ==> Freed(s, s', ptr)
    ensures !Held(s, ptr) && Held(s', ptr) ==> Retired(s, s', ptr)
    ensures Retired(s, s', ptr) ==> Held(s', ptr)
  {
    hide SlotStep, Formed, Forth, Back, Held, Freed, Retire;
    var u :| SlotStep(s, s', u);
    StepMoves(s, s', u);
    if Held(s, ptr) && !Held(s', ptr) { Lost(s, s', u, ptr); }
    if !Held(s, ptr) && Held(s', ptr) { Gained(s, s', u, ptr); }
    if v :| Retire(s, s', v, ptr) { RetireHolds(s, s', v, ptr); }
  }

  lemma StepHeldOnce(s: State, s': State)
    requires Next(s, s') && Formed(s) && HeldOnce(s) && RetiredOnce(s, s')
    ensures HeldOnce(s')
  {
    var u :| SlotStep(s, s', u);
    StepMoves(s, s', u);
    hide SlotStep, Retire, Forth, At;
    forall x, y | At(s', x) && At(s', y) && x.n.ptr == y.n.ptr ensures x == y {
      if !RetiredAt(s, s', u, x) && !RetiredAt(s, s', u, y) {
        var w :| CameFrom(s, u, x, w);
        var v :| CameFrom(s, u, y, v);
        assert w == v;
      } else {
        assert Retired(s, s', x.n.ptr);
      }
    }
  }

  /** In no run is a node in two places, unless it has been retired twice. */
  lemma {:induction false} InOnePlace(run: seq<State>, i: nat)
    requires OnceRun(run) && i < |run|
    ensures HeldOnce(run[i])
  {
    if i > 0 {
      InOnePlace(run, i - 1);
      RunFormed(run, i - 1);
      assert Next(run[i - 1], run[i - 1 + 1]) && RetiredOnce(run[i - 1], run[i - 1 + 1]);
      StepHeldOnce(run[i - 1], run[i]);
    }
  }

  /** From its retirement on a node is held until it is freed. */
  lemma {:induction false} HeldUntilFreed(run: seq<State>, i: nat, j: nat, ptr: nat)
    requires IsRun(run) && i < j < |run| && Retired(run[i], run[i + 1], ptr)
    ensures Held(run[j], ptr) || exists m :: i < m < j && Freed(run[m], run[m + 1], ptr)
    decreases j
  {
    hide Next, Freed, Retired, Held;
    RunFormed(run, j - 1);
    assert Next(run[j - 1], run[j - 1 + 1]);
    HeldChanges(run[j - 1], run[j], ptr);
    if i < j - 1 {
      HeldUntilFreed(run, i, j - 1, ptr);
      assert Freed(run[j - 1], run[j], ptr) ==> Freed(run[j - 1], run[j - 1 + 1], ptr);
    }
  }

  /** A freed node is held no more, so it is not freed again before it is retired again. */
  lemma FreedIsGone(run: seq<State>, i: nat, ptr: nat)
    requires OnceRun(run) && i + 1 < |run| && Freed(run[i], run[i + 1], ptr)
    ensures Held(run[i], ptr) && !Held(run[i + 1], ptr)
  {
    InOnePlace(run, i);
    var u, n: Node :| Free(run[i], run[i + 1], u, n) && n.ptr == ptr;
    FreeTakes(run[i], run[i + 1], u, n);
  }

  lemma FreeTakes(s: State, s': State, u: nat, n: Node)
    requires Free(s, s', u, n) && HeldOnce(s)
    ensures Held(s, n.ptr) && !Held(s', n.ptr)
  {
    var w := InList(u, s.slots[u].pc.epoch, n);
    assert At(s, w);
    forall x | At(s', x) ensures x.n.ptr != n.ptr {
      assert At(s, x) && x != w;
    }
  }
}
