/**
 Threads get in and out: whatever the others have done, late stores included, a thread that runs alone
 completes its entry, and one that ends gives its block back; nobody else gets the block before.
 */
module EbrLive {
  import opened Options
  import opened Ebr
  import opened EbrProof
  import opened EbrHeld

  /** A run of steps of one thread. */
  ghost predicate Alone(run: seq<State>, u: nat) {
    |run| > 0 && forall i :: 0 <= i < |run| - 1 ==> SlotStep(run[i], run[i + 1], u)
  }

  lemma Prepend(s: State, rest: seq<State>, u: nat)
    requires Alone(rest, u) && SlotStep(s, rest[0], u)
    ensures Alone([s] + rest, u)
  {
    hide SlotStep;
    var run := [s] + rest;
    forall i | 0 <= i < |run| - 1 ensures SlotStep(run[i], run[i + 1], u) {
      if i > 0 { assert SlotStep(rest[i - 1], rest[i], u); }
    }
  }

  // ---------------------------------------------------------------------------------------
  // Entries
  // ---------------------------------------------------------------------------------------

  function Stage(pc: Pc): (n: nat) {
    match pc
    case Flagged => 8
    case Storing(_, _) => 7
    case Attempting => 6
    case Scanning(_, _, _) => 5
    case Casing => 4
    case Adopting => 3
    case Publishing => 2
    case Freeing(_) => 1
    case _ => 0
  }

  /** What is left to do in a stage: blocks to look at, twice each at most, or nodes to free. */
  function Chores(b: Slot): (n: nat)
    requires |b.lists| == EPOCHS
  {
    if b.pc.Scanning? then
      var left := 2 * |b.pc.toScan - b.pc.scanned| - if b.pc.look.Some? then 1 else 0;
      if left >= 0 then left else 0
    else if b.pc.Freeing? && b.pc.epoch < EPOCHS then |b.lists[b.pc.epoch]|
    else 0
  }

  predicate Nearer(b: Slot, b': Slot) {
    && |b.lists| == EPOCHS && |b'.lists| == EPOCHS && (Mid(b'.pc) || b'.pc.In?)
    && (Stage(b'.pc) < Stage(b.pc) || (Stage(b'.pc) == Stage(b.pc) && Chores(b') < Chores(b)))
  }

  /** Each step of a scan looks at one more block, or at the other half of one. */
  lemma ScanNearer(s: State, s': State, u: nat)
    requires Formed(s) && SlotStep(s, s', u) && u in s.slots && s.slots[u].pc.Scanning?
    ensures u in s'.slots && Nearer(s.slots[u], s'.slots[u])
  {
    assert BlockFormed(s.slots.Keys, s.slots[u]);
    hide Formed, Nearer, Adopted, AllNodes, Stays, Lag;
    if v :| ScanFlag(s, s', u, v) {
      FlagNearer(s, s', u, v);
    } else if ScanEpoch(s, s', u) {
      EpochNearer(s, s', u);
    } else {
      DoneNearer(s, s', u);
    }
  }

  lemma FlagNearer(s: State, s': State, u: nat, v: nat)
    requires ScanFlag(s, s', u, v) && BlockFormed(s.slots.Keys, s.slots[u])
    ensures u in s'.slots && Nearer(s.slots[u], s'.slots[u])
  {
    Taken(s.slots[u].pc.toScan, s.slots[u].pc.scanned, v);
  }

  lemma EpochNearer(s: State, s': State, u: nat)
    requires ScanEpoch(s, s', u) && BlockFormed(s.slots.Keys, s.slots[u])
    ensures u in s'.slots && Nearer(s.slots[u], s'.slots[u])
  {
    Taken(s.slots[u].pc.toScan, s.slots[u].pc.scanned, s.slots[u].pc.look.value);
  }

  lemma DoneNearer(s: State, s': State, u: nat)
    requires ScanDone(s, s', u) && BlockFormed(s.slots.Keys, s.slots[u])
    ensures u in s'.slots && Nearer(s.slots[u], s'.slots[u])
  {
  }

  lemma Taken(all: set<nat>, done: set<nat>, v: nat)
    requires v in all - done
    ensures |all - (done + {v})| == |all - done| - 1
  {
    assert all - (done + {v}) == (all - done) - {v};
  }

  lemma ScanStep(s: State, u: nat) returns (s': State)
    requires Formed(s) && u in s.slots && s.slots[u].pc.Scanning?
    ensures SlotStep(s, s', u)
  {
    var b := s.slots[u];
    assert BlockFormed(s.slots.Keys, b);
    hide Formed;
    if b.pc.look.Some? {
      var v := b.pc.look.value;
      s' := Set(s, u, b.(pc := if s.slots[v].local == (b.local + EPOCHS - 1) % EPOCHS then In(1)
                               else b.pc.(scanned := b.pc.scanned + {v}, look := None)));
      assert ScanEpoch(s, s', u);
    } else if b.pc.toScan - b.pc.scanned != {} {
      var v :| v in b.pc.toScan - b.pc.scanned;
      assert v in s.slots.Keys;
      s' := Set(s, u, b.(pc := if s.slots[v].critical then b.pc.(look := Some(v))
                               else b.pc.(scanned := b.pc.scanned + {v})));
      assert ScanFlag(s, s', u, v);
    } else {
      forall v | v in b.pc.toScan ensures v in b.pc.scanned {
        assert v !in b.pc.toScan - b.pc.scanned;
      }
      s' := Set(s, u, b.(pc := if s.global == b.local then Casing else Publishing));
      assert ScanDone(s, s', u);
    }
  }

  /** The steps before a scan, and those of a thread that does not scan. */
  lemma EntryStep(s: State, u: nat) returns (s': State)
    requires Formed(s) && u in s.slots
    requires s.slots[u].pc.Flagged? || s.slots[u].pc.Storing? || s.slots[u].pc.Attempting?
    ensures SlotStep(s, s', u) && u in s'.slots && Nearer(s.slots[u], s'.slots[u])
  {
    var b := s.slots[u];
    assert BlockFormed(s.slots.Keys, b);
    if b.pc.Flagged? {
      s' := Set(s, u, if b.local != s.global then b.(pc := Storing(s.global, s.age))
                      else b.(entered := s.age, pc := In(1)));
      assert Load(s, s', u, false);
    } else if b.pc.Storing? {
      var lag := Lag(s, b.pc.epoch);
      s' := Set(s, u, b.(local := b.pc.epoch, entered := s.age - lag, pc := Freeing(b.pc.epoch)));
      assert Store(s, s', u);
    } else {
      s' := Set(s, u, b.(pc := Scanning(s.slots.Keys, {}, None)));
      assert Begin(s, s', u);
    }
  }

  /** The steps after a scan. */
  lemma AdvanceStep(s: State, u: nat) returns (s': State)
    requires Formed(s) && u in s.slots
    requires s.slots[u].pc.Casing? || s.slots[u].pc.Adopting? || s.slots[u].pc.Publishing?
    ensures SlotStep(s, s', u) && u in s'.slots && Nearer(s.slots[u], s'.slots[u])
  {
    hide Adopted;
    var b := s.slots[u];
    assert BlockFormed(s.slots.Keys, b);
    if b.pc.Casing? {
      s' := if s.global == b.local
            then Set(s, u, b.(pc := Adopting)).(global := (b.local + 1) % EPOCHS, age := s.age + 1)
            else Set(s, u, b.(pc := Publishing));
      assert Cas(s, s', u);
    } else if b.pc.Adopting? {
      s' := Set(s, u, b.(lists := Adopted(b.lists, s.orphans), pc := Publishing)).(orphans := {});
      assert Adopt(s, s', u);
      AdoptedThree(b.lists, s.orphans);
    } else {
      var epoch := (b.local + 1) % EPOCHS;
      s' := Set(s, u, b.(local := epoch, entered := b.entered + 1, pc := Freeing(epoch)));
      assert Publish(s, s', u);
    }
  }

  lemma AdoptedThree(lists: seq<set<Node>>, orphans: set<Orphan>)
    requires |lists| == EPOCHS
    ensures |Adopted(lists, orphans)| == EPOCHS
  {
  }

  lemma FreeStep(s: State, u: nat) returns (s': State)
    requires Formed(s) && u in s.slots && s.slots[u].pc.Freeing?
    ensures SlotStep(s, s', u) && u in s'.slots && Nearer(s.slots[u], s'.slots[u])
  {
    var b := s.slots[u];
    assert BlockFormed(s.slots.Keys, b);
    hide Formed;
    var e := b.pc.epoch;
    if n :| n in b.lists[e] {
      s' := Set(s, u, b.(lists := b.lists[e := b.lists[e] - {n}]));
      assert Free(s, s', u, n);
    } else {
      s' := Set(s, u, b.(pc := In(1)));
      assert FreeDone(s, s', u);
    }
  }

  /** Whatever it has got to, and whatever the others have done, a thread on its way in gets in if it is left alone. */
  lemma {:induction false} EntersAlone(s: State, u: nat) returns (run: seq<State>)
    requires Formed(s) && u in s.slots && (Mid(s.slots[u].pc) || s.slots[u].pc.In?)
    ensures Alone(run, u) && run[0] == s && u in run[|run| - 1].slots && run[|run| - 1].slots[u].pc.In?
    decreases Stage(s.slots[u].pc), Chores(s.slots[u])
  {
    hide SlotStep, Chores;
    var pc := s.slots[u].pc;
    assert BlockFormed(s.slots.Keys, s.slots[u]);
    if pc.In? {
      run := [s];
    } else {
      var s';
      if pc.Scanning? {
        s' := ScanStep(s, u);
        ScanNearer(s, s', u);
      } else if pc.Freeing? {
        s' := FreeStep(s, u);
      } else if pc.Casing? || pc.Adopting? || pc.Publishing? {
        s' := AdvanceStep(s, u);
      } else {
        s' := EntryStep(s, u);
      }
      StepMoves(s, s', u);
      hide Formed;
      var rest := EntersAlone(s', u);
      Prepend(s, rest, u);
      run := [s] + rest;
    }
  }

  /** A thread that has observed a new epoch has freed the whole list of that epoch when it is in. */
  lemma FreesAll(s: State, s': State, u: nat)
    requires Formed(s) && SlotStep(s, s', u) && u in s.slots && s.slots[u].pc.Freeing?
    ensures u in s'.slots && |s'.slots[u].lists| == EPOCHS && s.slots[u].pc.epoch < EPOCHS
    ensures s'.slots[u].pc.In? ==> s'.slots[u].lists[s.slots[u].pc.epoch] == {}
  {
    assert BlockFormed(s.slots.Keys, s.slots[u]);
    hide Stays, Lag, AllNodes, Adopted, Formed;
  }

  /** Leaving undoes a nested entry: a region ends with the leave that belongs to its outermost entry. */
  lemma NestedLeave(s: State, s1: State, s2: State, u: nat)
    requires Nest(s, s1, u) && Leave(s1, s2, u) && s.slots[u].pc.depth > 0
    ensures s2 == s
  {
    assert s2.slots == s.slots;
  }

  // ---------------------------------------------------------------------------------------
  // Blocks
  // ---------------------------------------------------------------------------------------

  /** A thread that ends alone gives its block back with empty lists, its nodes being orphans now. */
  lemma EndsAlone(s: State, u: nat) returns (run: seq<State>)
    requires Formed(s) && u in s.slots && s.slots[u].inUse && s.slots[u].pc.Out?
    ensures Alone(run, u) && run[0] == s
    ensures var s' := run[|run| - 1];
            && u in s'.slots && !s'.slots[u].inUse
            && |s'.slots[u].lists| == EPOCHS && AllNodes(s'.slots[u].lists) == {}
            && forall n :: n in AllNodes(s.slots[u].lists) ==> exists o :: o in s'.orphans && n in o.nodes
  {
    hide AllNodes;
    var b := s.slots[u];
    assert BlockFormed(s.slots.Keys, b);
    hide Formed;
    var nodes, target := AllNodes(b.lists), (s.global + EPOCHS - 1) % EPOCHS;
    if nodes == {} {
      var s1 := Set(s, u, b.(pc := Releasing));
      var s2 := Set(s1, u, b.(inUse := false, pc := Out));
      assert Exit(s, s1, u) && Release(s1, s2, u);
      run := [s, s1, s2];
    } else {
      var s1 := Set(s, u, b.(pc := Exiting(target, s.age - 1)));
      var o := Orphan(target, s.age - 1, nodes);
      var b2 := b.(lists := EMPTY, pc := Releasing);
      var s2 := Set(s1, u, b2).(orphans := s.orphans + {o});
      var s3 := Set(s2, u, b2.(inUse := false, pc := Out));
      assert Exit(s, s1, u) && Abandon(s1, s2, u) && Release(s2, s3, u);
      NoneEmpty();
      assert o in s3.orphans;
      run := [s, s1, s2, s3];
    }
  }

  lemma NoneEmpty()
    ensures AllNodes(EMPTY) == {}
  {
  }

  /** Only a release takes a block out of use, and only an acquisition puts it into use. */
  lemma UseChanges(s: State, s': State, u: nat, v: nat)
    requires SlotStep(s, s', v) && u in s.slots && Formed(s)
    ensures u in s'.slots && (s.slots[u].inUse && !s'.slots[u].inUse ==> u == v && Release(s, s', u))
    ensures Acquire(s, s', v) ==> v in s'.slots && s'.slots[v].inUse && (v in s.slots ==> !s.slots[v].inUse)
  {
    hide Stays, Lag, AllNodes, Adopted, Formed;
  }

  /** Two threads get the same block only if the first one has given it back in between. */
  lemma {:induction false} AcquiredOnce(run: seq<State>, i: nat, j: nat, u: nat)
    requires IsRun(run) && i < j < |run| - 1 && Acquire(run[i], run[i + 1], u) && Acquire(run[j], run[j + 1], u)
    ensures exists m :: i < m < j && Release(run[m], run[m + 1], u)
  {
    assert u in run[i + 1].slots && run[i + 1].slots[u].inUse;
    hide Next, Init;
    StillInUse(run, i + 1, j, u);
  }

  lemma {:induction false} StillInUse(run: seq<State>, i: nat, j: nat, u: nat)
    requires IsRun(run) && i <= j < |run| && u in run[i].slots && run[i].slots[u].inUse
    ensures u in run[j].slots && (run[j].slots[u].inUse || exists m :: i <= m < j && Release(run[m], run[m + 1], u))
    decreases j
  {
    hide Init, SlotStep, Release, Acquire;
    if i < j {
      StillInUse(run, i, j - 1, u);
      RunFormed(run, j - 1);
      assert Next(run[j - 1], run[j - 1 + 1]);
      var v :| SlotStep(run[j - 1], run[j], v);
      hide Formed;
      UseChanges(run[j - 1], run[j], u, v);
      assert Release(run[j - 1], run[j], u) ==> Release(run[j - 1], run[j - 1 + 1], u);
    }
  }
}
