/**
 What a store of the local epoch does that comes too late. The thread stands two epochs behind the
 global one and stops no advance before a node retired now is freed. If no other thread is on its
 way in, all that follows is safe exactly if the store is less than two epochs late.
 */
module EbrLate {
  import opened Options
  import opened Ebr
  import opened EbrProof

  // ---------------------------------------------------------------------------------------
  // Sequences of timely steps
  // ---------------------------------------------------------------------------------------

  ghost predicate Go(s: State, s': State) {
    Next(s, s') && InTime(s, s')
  }

  ghost predicate Path(run: seq<State>) {
    |run| > 0 && forall i :: 0 <= i < |run| - 1 ==> Go(run[i], run[i + 1])
  }

  ghost predicate Leads(run: seq<State>, s: State, s': State) {
    Path(run) && run[0] == s && run[|run| - 1] == s'
  }

  ghost predicate Reach(s: State, s': State) {
    exists run :: Leads(run, s, s')
  }

  lemma Here(s: State)
    ensures Reach(s, s)
  {
    assert Leads([s], s, s);
  }

  lemma Joined(a: seq<State>, b: seq<State>, r: State, s: State, s': State, t: State)
    requires Leads(a, r, s) && Go(s, s') && Leads(b, s', t)
    ensures Leads(a + b, r, t)
  {
    hide Go;
    forall i | 0 <= i < |a + b| - 1 ensures Go((a + b)[i], (a + b)[i + 1]) {
      if i < |a| - 1 {
        assert Go(a[i], a[i + 1]);
      } else if i >= |a| {
        assert Go(b[i - |a|], b[i - |a| + 1]);
      }
    }
  }

  lemma Further(r: State, s: State, s': State)
    requires Reach(r, s) && Go(s, s')
    ensures Reach(r, s')
  {
    hide Go;
    var a :| Leads(a, r, s);
    Joined(a, [s'], r, s, s', s');
  }

  lemma {:induction false} PathInv(run: seq<State>, i: nat)
    requires Path(run) && Inv(run[0]) && i < |run|
    ensures Inv(run[i])
  {
    if i > 0 {
      PathInv(run, i - 1);
      assert Go(run[i - 1], run[i - 1 + 1]);
      hide Inv;
      NextInv(run[i - 1], run[i]);
    }
  }

  lemma StoreAt(s: State, s': State, u: nat, v: nat)
    requires u in s'.slots && s'.slots == s.slots[u := s'.slots[u]]
    ensures Store(s, s', v) ==> v == u
  {
    if v != u && v in s.slots {
      assert s'.slots[v] == s.slots[v];
    }
  }

  /** A step of a thread that is not about to store. */
  lemma Steps(r: State, s: State, s': State, u: nat)
    requires Reach(r, s) && SlotStep(s, s', u) && u in s'.slots && s'.slots == s.slots[u := s'.slots[u]]
    requires u in s.slots ==> !s.slots[u].pc.Storing?
    ensures Reach(r, s')
  {
    hide SlotStep;
    assert Next(s, s');
    forall v ensures !Store(s, s', v) {
      StoreAt(s, s', u, v);
    }
    Further(r, s, s');
  }

  // ---------------------------------------------------------------------------------------
  // Whole operations of one thread
  // ---------------------------------------------------------------------------------------

  lemma Fresh(keys: set<nat>) returns (x: nat)
    ensures x !in keys
  {
    x := 0;
    var rest := keys;
    while rest != {}
      invariant rest <= keys && forall k :: k in keys && k !in rest ==> k < x
      decreases |rest|
    {
      var k :| k in rest;
      rest, x := rest - {k}, if k < x then x else k + 1;
    }
  }

  /** A thread leaves all its nested regions. */
  lemma {:induction false} Departs(r: State, s: State, u: nat)
    requires Reach(r, s) && u in s.slots && s.slots[u].pc.In? && s.slots[u].pc.depth > 0
    ensures Reach(r, Set(s, u, s.slots[u].(critical := false, pc := Out)))
    decreases s.slots[u].pc.depth
  {
    var d := s.slots[u].pc.depth;
    var s' := Set(s, u, if d == 1 then s.slots[u].(critical := false, pc := Out) else s.slots[u].(pc := In(d - 1)));
    assert Leave(s, s', u);
    Steps(r, s, s', u);
    if d > 1 {
      Departs(r, s', u);
      assert Set(s', u, s'.slots[u].(critical := false, pc := Out))
          == Set(s, u, s.slots[u].(critical := false, pc := Out));
    }
  }

  /** A thread frees the list of its new epoch and is inside. */
  lemma {:induction false} Freed(r: State, s: State, u: nat)
    requires Reach(r, s) && u in s.slots && s.slots[u].pc.Freeing? && |s.slots[u].lists| == EPOCHS
    requires s.slots[u].pc.epoch < EPOCHS
    ensures var b := s.slots[u];
            Reach(r, Set(s, u, b.(lists := b.lists[b.pc.epoch := {}], pc := In(1))))
    decreases |s.slots[u].lists[s.slots[u].pc.epoch]|
  {
    var b := s.slots[u];
    var e := b.pc.epoch;
    if b.lists[e] == {} {
      var done := Set(s, u, b.(pc := In(1)));
      assert b.lists[e := {}] == b.lists;
      assert FreeDone(s, done, u);
      Steps(r, s, done, u);
    } else {
      var n :| n in b.lists[e];
      FreesOne(r, s, u, n);
      hide Reach;
      var s' := Set(s, u, b.(lists := b.lists[e := b.lists[e] - {n}]));
      Freed(r, s', u);
      assert s'.slots[u].lists[e := {}] == b.lists[e := {}];
      var b' := b.(lists := b.lists[e := {}], pc := In(1));
      assert Set(s', u, b') == Set(s, u, b');
    }
  }

  lemma FreesOne(r: State, s: State, u: nat, n: Node)
    requires Reach(r, s) && u in s.slots && s.slots[u].pc.Freeing? && |s.slots[u].lists| == EPOCHS
    requires s.slots[u].pc.epoch < EPOCHS && n in s.slots[u].lists[s.slots[u].pc.epoch]
    ensures var b := s.slots[u];
            Reach(r, Set(s, u, b.(lists := b.lists[b.pc.epoch := b.lists[b.pc.epoch] - {n}])))
  {
    var b := s.slots[u];
    var s' := Set(s, u, b.(lists := b.lists[b.pc.epoch := b.lists[b.pc.epoch] - {n}]));
    assert Free(s, s', u, n);
    Steps(r, s, s', u);
  }

  const ARRIVED: Slot := NEW_SLOT.(critical := true, region := 1)

  /** A thread with a new control block enters. */
  lemma Arrives(r: State, s: State, u: nat)
    requires Reach(r, s) && u !in s.slots && s.global < EPOCHS
    ensures Reach(r, Set(s, u, ARRIVED.(local := s.global, entered := s.age, pc := In(1))))
  {
    var s1 := Set(s, u, NEW_SLOT);
    assert Acquire(s, s1, u);
    Steps(r, s, s1, u);
    var s2 := Set(s, u, ARRIVED.(pc := Flagged));
    assert s2 == Set(s1, u, s2.slots[u]) && Flag(s1, s2, u);
    Steps(r, s1, s2, u);
    var s3 := Set(s, u, ARRIVED.(pc := Storing(s.global, s.age)));
    assert s3 == Set(s2, u, s3.slots[u]) && Load(s2, s3, u, false);
    Steps(r, s2, s3, u);
    var s4 := Set(s, u, ARRIVED.(local := s.global, entered := s.age, pc := Freeing(s.global)));
    assert s4 == Set(s3, u, s4.slots[u]) && Store(s3, s4, u);
    Punctual(r, s3, s4, u);
    Freed(r, s4, u);
    assert EMPTY[s.global := {}] == EMPTY;
    var s5 := Set(s, u, ARRIVED.(local := s.global, entered := s.age, pc := In(1)));
    assert s5 == Set(s4, u, s5.slots[u]);
  }

  lemma Punctual(r: State, s: State, s': State, u: nat)
    requires Reach(r, s) && Store(s, s', u) && s.slots[u].pc.epoch == s.global
    ensures Reach(r, s')
  {
    assert SlotStep(s, s', u);
    forall v ensures Store(s, s', v) ==> v == u {
      StoreAt(s, s', u, v);
    }
    hide SlotStep;
    Further(r, s, s');
  }

  // ---------------------------------------------------------------------------------------
  // Advancing the epoch, undisturbed
  // ---------------------------------------------------------------------------------------

  /** Nobody stops the global epoch from advancing. */
  ghost predicate Unblocked(s: State) {
    forall v :: v in s.slots && s.slots[v].critical ==> s.slots[v].local != (s.global + EPOCHS - 1) % EPOCHS
  }

  /** Block `u` with its scan having got to `scanned`. */
  ghost function ScanAt(s: State, u: nat, keys: set<nat>, scanned: set<nat>, look: Option<nat>): (s': State)
    requires u in s.slots
  {
    Set(s, u, s.slots[u].(pc := Scanning(keys, scanned, look)))
  }

  lemma ScansOne(r: State, s: State, u: nat, scanned: set<nat>, v: nat)
    requires u in s.slots && s.slots[u].local == s.global && Unblocked(s) && v in s.slots && v !in scanned
    requires Reach(r, ScanAt(s, u, s.slots.Keys, scanned, None))
    ensures Reach(r, ScanAt(s, u, s.slots.Keys, scanned + {v}, None))
  {
    var s0, s2 := ScanAt(s, u, s.slots.Keys, scanned, None), ScanAt(s, u, s.slots.Keys, scanned + {v}, None);
    assert s2 == Set(s0, u, s2.slots[u]);
    if s.slots[v].critical {
      var s1 := ScanAt(s, u, s.slots.Keys, scanned, Some(v));
      assert s1 == Set(s0, u, s1.slots[u]) && s2 == Set(s1, u, s2.slots[u]);
      assert ScanFlag(s0, s1, u, v);
      Steps(r, s0, s1, u);
      assert ScanEpoch(s1, s2, u);
      Steps(r, s1, s2, u);
    } else {
      assert ScanFlag(s0, s2, u, v);
      Steps(r, s0, s2, u);
    }
  }

  lemma {:induction false} ScansAll(r: State, s: State, u: nat, scanned: set<nat>)
    requires u in s.slots && s.slots[u].local == s.global && Unblocked(s) && scanned <= s.slots.Keys
    requires Reach(r, ScanAt(s, u, s.slots.Keys, scanned, None))
    ensures Reach(r, ScanAt(s, u, s.slots.Keys, s.slots.Keys, None))
    decreases |s.slots.Keys - scanned|
  {
    hide Reach, Unblocked, ScanAt;
    if v :| v in s.slots.Keys && v !in scanned {
      ScansOne(r, s, u, scanned, v);
      assert s.slots.Keys - (scanned + {v}) < s.slots.Keys - scanned;
      ScansAll(r, s, u, scanned + {v});
    } else {
      assert scanned == s.slots.Keys;
    }
  }

  /** A thread outside that has seen the current epoch enters and starts scanning. */
  lemma StartsScan(r: State, s: State, u: nat, b: Slot)
    requires Reach(r, s) && u in s.slots && s.slots[u].inUse && s.slots[u].pc == Out && s.slots[u].local == s.global
    requires b == s.slots[u].(critical := true, region := s.slots[u].region + 1, entered := s.age)
    ensures Reach(r, ScanAt(Set(s, u, b), u, s.slots.Keys, {}, None))
  {
    var s1 := Set(s, u, s.slots[u].(critical := true, region := s.slots[u].region + 1, pc := Flagged));
    assert Flag(s, s1, u);
    Steps(r, s, s1, u);
    var s2 := Set(s, u, b.(pc := Attempting));
    assert s2 == Set(s1, u, s2.slots[u]) && Load(s1, s2, u, true);
    Steps(r, s1, s2, u);
    var s3 := ScanAt(Set(s, u, b), u, s.slots.Keys, {}, None);
    assert s3 == Set(s2, u, s3.slots[u]) && s2.slots.Keys == s.slots.Keys && Begin(s2, s3, u);
    Steps(r, s2, s3, u);
  }

  /** A state in which the thread `u`, with block `b`, has advanced the epoch and taken over the orphans. */
  ghost function Advanced(s: State, u: nat, b: Slot): (s': State)
    requires |b.lists| == EPOCHS
  {
    var epoch := (s.global + 1) % EPOCHS;
    State(epoch, s.age + 1,
          s.slots[u := b.(local := epoch, entered := s.age + 1, lists := Adopted(b.lists, s.orphans),
                          pc := Freeing(epoch))], {})
  }

  lemma EndsScan(r: State, s: State, u: nat)
    requires u in s.slots && s.slots[u].local == s.global && |s.slots[u].lists| == EPOCHS
    requires s.slots[u].entered == s.age && Reach(r, ScanAt(s, u, s.slots.Keys, s.slots.Keys, None))
    ensures Reach(r, Advanced(s, u, s.slots[u]))
  {
    var b, s0 := s.slots[u], ScanAt(s, u, s.slots.Keys, s.slots.Keys, None);
    var s1 := Set(s, u, b.(pc := Casing));
    assert s1 == Set(s0, u, s1.slots[u]) && ScanDone(s0, s1, u);
    Steps(r, s0, s1, u);
    var s2 := Set(s, u, b.(pc := Adopting)).(global := (s.global + 1) % EPOCHS, age := s.age + 1);
    assert s2.slots == Set(s1, u, s2.slots[u]).slots && Cas(s1, s2, u);
    Steps(r, s1, s2, u);
    Adopts(r, s, s2, u);
  }

  lemma Adopts(r: State, s: State, s2: State, u: nat)
    requires u in s.slots && s.slots[u].local == s.global && |s.slots[u].lists| == EPOCHS
    requires s.slots[u].entered == s.age && Reach(r, s2)
    requires s2 == Set(s, u, s.slots[u].(pc := Adopting)).(global := (s.global + 1) % EPOCHS, age := s.age + 1)
    ensures Reach(r, Advanced(s, u, s.slots[u]))
  {
    hide Adopted;
    var b := s.slots[u];
    var lists := Adopted(b.lists, s.orphans);
    var s3 := Set(s2, u, b.(lists := lists, pc := Publishing)).(orphans := {});
    assert Adopt(s2, s3, u);
    Steps(r, s2, s3, u);
    var s4 := Advanced(s, u, b);
    assert s4 == Set(s3, u, s4.slots[u]) && Publish(s3, s4, u);
    Steps(r, s3, s4, u);
  }

  lemma Advances(r: State, s: State, u: nat, b: Slot)
    requires Reach(r, s) && u in s.slots && s.slots[u].inUse && s.slots[u].pc == Out && s.slots[u].local == s.global
    requires Unblocked(s) && s.global < EPOCHS && |s.slots[u].lists| == EPOCHS
    requires b == s.slots[u].(critical := true, region := s.slots[u].region + 1, entered := s.age)
    ensures Reach(r, Advanced(s, u, b))
  {
    var s0 := Set(s, u, b);
    assert s0.slots.Keys == s.slots.Keys && Unblocked(s0);
    StartsScan(r, s, u, b);
    hide Reach, Unblocked, Adopted;
    ScansAll(r, s0, u, {});
    EndsScan(r, s0, u);
    assert Advanced(s0, u, b) == Advanced(s, u, b);
  }

  // ---------------------------------------------------------------------------------------
  // A thread two epochs behind
  // ---------------------------------------------------------------------------------------

  /** A node is freed under a stay that saw it retired. */
  ghost predicate Harm(s: State, s': State, u: nat, n: Node, g: Stay) {
    Free(s, s', u, n) && g in n.guards && Present(s, g)
  }

  /** Some sequence of timely steps leads there. */
  ghost predicate CanHarm(s: State) {
    exists t, t', u, n, g :: Reach(s, t) && Harm(t, t', u, n, g)
  }

  /** Nobody but `u` has its flag set. */
  ghost predicate Alone(s: State, u: nat) {
    u in s.slots && forall v :: v in s.slots && v != u ==> !s.slots[v].critical
  }

  /** `u` is inside, two epochs behind. */
  ghost predicate Behind(s: State, u: nat) {
    s.global < EPOCHS && Alone(s, u) && s.slots[u].pc.In? && s.slots[u].local == (s.global + 1) % EPOCHS
  }

  /** All other threads leave. */
  lemma Settles(r: State, s: State, u: nat) returns (s': State)
    requires Reach(r, s) && u in s.slots
    requires forall v :: v in s.slots && v != u && s.slots[v].critical ==>
               s.slots[v].pc.In? && s.slots[v].pc.depth > 0
    ensures Reach(r, s') && s' == s.(slots := s'.slots) && Alone(s', u) && s'.slots[u] == s.slots[u]
  {
    s' := s;
    var rest := s.slots.Keys - {u};
    while rest != {}
      invariant Reach(r, s') && s' == s.(slots := s'.slots) && s'.slots.Keys == s.slots.Keys && u !in rest
      invariant u in s'.slots && s'.slots[u] == s.slots[u]
      invariant forall v :: v in s.slots && v != u && v !in rest ==> !s'.slots[v].critical
      invariant forall v :: v in rest ==> v in s.slots && s'.slots[v] == s.slots[v]
      decreases |rest|
    {
      hide Reach;
      var v :| v in rest;
      rest := rest - {v};
      if s'.slots[v].critical {
        Departs(r, s', v);
        s' := Set(s', v, s'.slots[v].(critical := false, pc := Out));
      }
    }
  }

  const GONE: Slot := ARRIVED.(critical := false, pc := Releasing)

  ghost function LeftBy(s: State, n: Node): (o: Orphan)
    requires s.age > 0
  {
    Orphan((s.global + EPOCHS - 1) % EPOCHS, s.age - 1, {n})
  }

  /** A new thread enters, retires a node, leaves and ends. */
  lemma RetiresAndEnds(r: State, s: State, u: nat, n: Node)
    requires Reach(r, s) && u !in s.slots && s.global < EPOCHS && s.age > 0
    requires n == Node(0, s.age, Stays(Set(s, u, ARRIVED.(local := s.global, entered := s.age, pc := In(1)))))
    ensures Reach(r, Set(s, u, GONE.(local := s.global, entered := s.age)).(orphans := s.orphans + {LeftBy(s, n)}))
  {
    hide Stays;
    Arrives(r, s, u);
    var b := ARRIVED.(local := s.global, entered := s.age, pc := In(1));
    var lists := EMPTY[s.global := {n}];
    var s1, s2 := Set(s, u, b), Set(s, u, b.(lists := lists));
    assert EMPTY[s.global] + {n} == {n};
    assert s2 == Set(s1, u, s2.slots[u]) && Retire(s1, s2, u, 0);
    Steps(r, s1, s2, u);
    Departs(r, s2, u);
    var s3 := Set(s, u, b.(critical := false, lists := lists, pc := Out));
    assert s3 == Set(s2, u, s3.slots[u]);
    Ends(r, s, s3, u, n);
  }

  lemma Ends(r: State, s: State, s3: State, u: nat, n: Node)
    requires Reach(r, s3) && s.global < EPOCHS && s.age > 0
    requires s3 == Set(s, u, ARRIVED.(local := s.global, entered := s.age, critical := false,
                                      lists := EMPTY[s.global := {n}], pc := Out))
    ensures Reach(r, Set(s, u, GONE.(local := s.global, entered := s.age)).(orphans := s.orphans + {LeftBy(s, n)}))
  {
    var b, o := s3.slots[u], LeftBy(s, n);
    assert AllNodes(b.lists) == {n};
    var s4 := Set(s, u, b.(pc := Exiting(o.target, o.bound)));
    assert s4 == Set(s3, u, s4.slots[u]) && Exit(s3, s4, u);
    Steps(r, s3, s4, u);
    var s5 := Set(s, u, b.(lists := EMPTY, pc := Releasing)).(orphans := s.orphans + {o});
    assert s5.slots == Set(s4, u, s5.slots[u]).slots && Abandon(s4, s5, u);
    Steps(r, s4, s5, u);
  }

  /** A new thread comes and goes. */
  lemma Visits(r: State, s: State, u: nat)
    requires Reach(r, s) && u !in s.slots && s.global < EPOCHS
    ensures Reach(r, Set(s, u, ARRIVED.(local := s.global, entered := s.age, critical := false)))
  {
    Arrives(r, s, u);
    var s1 := Set(s, u, ARRIVED.(local := s.global, entered := s.age, pc := In(1)));
    Departs(r, s1, u);
    assert Set(s1, u, s1.slots[u].(critical := false, pc := Out))
        == Set(s, u, ARRIVED.(local := s.global, entered := s.age, critical := false));
  }

  /** A thread outside advances the epoch, frees what it may and leaves. */
  lemma AdvancesAndLeaves(r: State, s: State, u: nat) returns (s': State)
    requires Reach(r, s) && u in s.slots && s.slots[u].inUse && s.slots[u].pc == Out && s.slots[u].local == s.global
    requires Unblocked(s) && s.global < EPOCHS && |s.slots[u].lists| == EPOCHS
    ensures Reach(r, s') && s'.global == (s.global + 1) % EPOCHS && s'.age == s.age + 1 && s'.orphans == {}
    ensures u in s'.slots && s'.slots == s.slots[u := s'.slots[u]]
    ensures var b := s'.slots[u];
            && b.inUse && !b.critical && b.pc == Out && b.local == s'.global
            && b.lists == Adopted(s.slots[u].lists, s.orphans)[s'.global := {}]
  {
    assert |Adopted(s.slots[u].lists, s.orphans)| == EPOCHS;
    hide Adopted;
    var b := s.slots[u].(critical := true, region := s.slots[u].region + 1, entered := s.age);
    Advances(r, s, u, b);
    var s1 := Advanced(s, u, b);
    Freed(r, s1, u);
    var s2 := Set(s1, u, s1.slots[u].(lists := s1.slots[u].lists[s1.global := {}], pc := In(1)));
    Departs(r, s2, u);
    s' := Set(s2, u, s2.slots[u].(critical := false, pc := Out));
  }

  /** Two advances pass a thread that is two epochs behind, and free an orphan left one epoch ago. */
  lemma AdvancesTwice(r: State, s: State, u: nat, v: nat, o: Orphan, n: Node) returns (t: State)
    requires Reach(r, s) && Behind(s, u) && v in s.slots && v != u
    requires s.slots[v].inUse && s.slots[v].pc == Out && s.slots[v].local == s.global && s.slots[v].lists == EMPTY
    requires o in s.orphans && n in o.nodes && o.target == (s.global + EPOCHS - 1) % EPOCHS
    ensures Reach(r, t) && u in t.slots && t.slots[u] == s.slots[u]
    ensures v in t.slots && t.slots[v].pc == Freeing(o.target)
    ensures |t.slots[v].lists| == EPOCHS && o.target < EPOCHS && n.(bound := o.bound) in t.slots[v].lists[o.target]
  {
    var s' := AdvancesAndLeaves(r, s, v);
    var b := s'.slots[v];
    Targeted(s, o, n);
    assert n.(bound := o.bound) in b.lists[o.target];
    forall w | w in s'.slots && s'.slots[w].critical
      ensures s'.slots[w].local != (s'.global + EPOCHS - 1) % EPOCHS
    {
      assert w == u;
    }
    hide Adopted, Reach;
    var b' := b.(critical := true, region := b.region + 1, entered := s'.age);
    Advances(r, s', v, b');
    t := Advanced(s', v, b');
    AdoptedKeeps(b.lists, {}, o.target);
  }

  lemma Targeted(s: State, o: Orphan, n: Node)
    requires o in s.orphans && n in o.nodes && o.target < EPOCHS
    ensures n.(bound := o.bound) in Adopted(EMPTY, s.orphans)[o.target]
  {
  }

  lemma AdoptedKeeps(lists: seq<set<Node>>, orphans: set<Orphan>, e: nat)
    requires |lists| == EPOCHS && e < EPOCHS
    ensures lists[e] <= Adopted(lists, orphans)[e]
  {
  }

  /** So a thread that is two epochs behind can have a node freed under it. */
  lemma BehindHarms(r: State, s: State, u: nat)
    requires Reach(r, s) && Behind(s, u) && s.age > 0
    ensures CanHarm(r)
  {
    var x := Fresh(s.slots.Keys);
    var s0 := Set(s, x, ARRIVED.(local := s.global, entered := s.age, pc := In(1)));
    var n, g := Node(0, s.age, Stays(s0)), Stay(u, s.slots[u].region);
    assert s0.slots[u] == s.slots[u] && g in n.guards;
    RetiresAndEnds(r, s, x, n);
    var o := LeftBy(s, n);
    var s1 := Set(s, x, GONE.(local := s.global, entered := s.age)).(orphans := s.orphans + {o});
    var v := Fresh(s1.slots.Keys);
    Visits(r, s1, v);
    var s2 := Set(s1, v, ARRIVED.(local := s.global, entered := s.age, critical := false));
    assert Behind(s2, u);
    hide Reach, Stays;
    var t := AdvancesTwice(r, s2, u, v, o, n);
    var n' := n.(bound := o.bound);
    var t' := Set(t, v, t.slots[v].(lists := t.slots[v].lists[o.target := t.slots[v].lists[o.target] - {n'}]));
    assert Harm(t, t', v, n', g);
  }

  // ---------------------------------------------------------------------------------------
  // Exactly which stores are safe
  // ---------------------------------------------------------------------------------------

  /** Nothing that starts in the invariant harms, whatever comes. */
  lemma InvIsSafe(s: State)
    requires Inv(s)
    ensures !CanHarm(s)
  {
    hide Inv;
    forall t, t', u, n, g | Reach(s, t) ensures !Harm(t, t', u, n, g) {
      var run :| Leads(run, s, t);
      PathInv(run, |run| - 1);
      if Free(t, t', u, n) {
        FreeSafe(t, t', u, n);
      }
    }
  }

  /** No thread but `u` is on its way in. */
  ghost predicate Settled(s: State, u: nat) {
    forall v :: v in s.slots && v != u ==> !Mid(s.slots[v].pc)
  }

  lemma LateStoreHarms(s: State, s': State, u: nat)
    requires Inv(s) && Store(s, s', u) && Settled(s, u) && Lag(s, s.slots[u].pc.epoch) == 2
    ensures CanHarm(s')
  {
    assert ListsOk(s, s.slots[u]);
    Here(s');
    Freed(s', s', u);
    var b := s'.slots[u];
    var s1 := Set(s', u, b.(lists := b.lists[b.pc.epoch := {}], pc := In(1)));
    forall v | v in s1.slots && v != u && s1.slots[v].critical
      ensures s1.slots[v].pc.In? && s1.slots[v].pc.depth > 0
    {
      assert s1.slots[v] == s.slots[v] && BlockOk(s, s.slots[v]);
    }
    hide Reach, BlockOk, ListsOk, ExitingOk, OrphanOk;
    var s2 := Settles(s', s1, u);
    assert Behind(s2, u);
    BehindHarms(s', s2, u);
  }

  /** While no other thread is on its way in, a store is safe exactly if it is timely: less than two epochs late. */
  lemma StoreIsSafeIff(s: State, s': State, u: nat)
    requires Inv(s) && Store(s, s', u) && Settled(s, u)
    ensures !CanHarm(s') <==> Timely(s, u)
    ensures Timely(s, u) <==> Lag(s, s.slots[u].pc.epoch) < 2
  {
    hide Inv, CanHarm;
    SettledIsTimely(s, u);
    if Timely(s, u) {
      StoreInv(s, s', u);
      InvIsSafe(s');
    } else {
      LateStoreHarms(s, s', u);
    }
  }

  lemma SettledIsTimely(s: State, u: nat)
    requires Inv(s) && u in s.slots && s.slots[u].pc.Storing? && Settled(s, u)
    ensures s.slots[u].pc.epoch < EPOCHS && (Timely(s, u) <==> Lag(s, s.slots[u].pc.epoch) < 2)
    ensures Lag(s, s.slots[u].pc.epoch) <= 2
  {
    hide ListsOk, ExitingOk, OrphanOk;
    assert BlockOk(s, s.slots[u]);
    LagIs(s, s.slots[u].pc.epoch);
    hide Lag;
  }

  // ---------------------------------------------------------------------------------------
  // A run from the start
  // ---------------------------------------------------------------------------------------

  /** Thread 0 has loaded the first epoch; the global one advances twice before it stores. */
  lemma TwoAdvances(r: State) returns (s: State)
    requires Init(r)
    ensures Reach(r, s) && s.global == 2 && s.age == EPOCHS + 2 && 0 in s.slots && Settled(s, 0)
    ensures s.slots[0].pc == Storing(0, EPOCHS)
  {
    Here(r);
    var s1 := Set(r, 0, NEW_SLOT);
    assert Acquire(r, s1, 0);
    Steps(r, r, s1, 0);
    var s2 := Set(s1, 0, ARRIVED.(pc := Flagged));
    assert Flag(s1, s2, 0);
    Steps(r, s1, s2, 0);
    var s3 := Set(s2, 0, ARRIVED.(pc := Storing(0, EPOCHS)));
    assert Load(s2, s3, 0, false);
    Steps(r, s2, s3, 0);
    hide Reach, Adopted;
    Visits(r, s3, 1);
    var s4 := Set(s3, 1, ARRIVED.(local := 0, entered := EPOCHS, critical := false));
    var s5 := AdvancesAndLeaves(r, s4, 1);
    s := AdvancesAndLeaves(r, s5, 1);
  }

  lemma Concat(r: State, a: seq<State>, s: State, s': State)
    requires Init(r) && Leads(a, r, s) && Next(s, s')
    ensures IsRun(a + [s'])
  {
    hide Next;
    forall i | 0 <= i < |a + [s']| - 1 ensures Next((a + [s'])[i], (a + [s'])[i + 1]) {
      if i < |a| - 1 {
        assert Go(a[i], a[i + 1]);
      }
    }
  }

  lemma Continued(a: seq<State>, b: seq<State>, s: State, t: State, t': State)
    requires IsRun(a) && a[|a| - 1] == s && Leads(b, s, t) && Next(t, t')
    ensures IsRun(a + b[1..] + [t']) && (a + b[1..])[|a + b[1..]| - 1] == t
  {
    hide Next, Init;
    var run := a + b[1..] + [t'];
    forall i | 0 <= i < |run| - 1 ensures Next(run[i], run[i + 1]) {
      if i < |a| - 1 {
        assert Next(a[i], a[i + 1]);
      } else if i < |a + b[1..]| - 1 {
        assert run[i] == b[i - |a| + 1] && run[i + 1] == b[i - |a| + 1 + 1];
        assert Go(b[i - |a| + 1], b[i - |a| + 1 + 1]);
      }
    }
  }

  /** Entered with an epoch that is neither the global one nor the one before. */
  ghost predicate Lags(s: State, u: nat) {
    && u in s.slots && Entered(s.slots[u].pc)
    && s.slots[u].local != s.global && s.slots[u].local != (s.global + EPOCHS - 1) % EPOCHS
  }

  /** A run in which a late store leaves a thread two epochs behind, and a node is freed under its stay. */
  lemma LateStoreFrees() returns (run: seq<State>, i: nat, j: nat, u: nat, n: Node, g: Stay)
    ensures IsRun(run) && i < |run| && Lags(run[i], 0)
    ensures j + 1 < |run| && Harm(run[j], run[j + 1], u, n, g)
  {
    var a, s' := LateStore();
    var t, t';
    t, t', u, n, g :| Reach(s', t) && Harm(t, t', u, n, g);
    hide Inv, Stays, IsRun, Lags;
    run, i, j := Extends(a, s', t, t', u, n, g);
  }

  lemma LateStore() returns (a: seq<State>, s': State)
    ensures IsRun(a) && a[|a| - 1] == s' && Lags(s', 0) && CanHarm(s')
  {
    var r := State(0, EPOCHS, map[], {});
    var s := TwoAdvances(r);
    a :| Leads(a, r, s);
    PathInv(a, |a| - 1);
    s' := Set(s, 0, s.slots[0].(local := 0, entered := EPOCHS, pc := Freeing(0)));
    assert Store(s, s', 0) && SlotStep(s, s', 0);
    hide Inv, CanHarm, SlotStep, Path;
    LateStoreHarms(s, s', 0);
    Concat(r, a, s, s');
    a := a + [s'];
  }

  lemma Extends(a: seq<State>, s: State, t: State, t': State, u: nat, n: Node, g: Stay)
    returns (run: seq<State>, i: nat, j: nat)
    requires IsRun(a) && a[|a| - 1] == s && Reach(s, t) && Harm(t, t', u, n, g)
    ensures IsRun(run) && i < |run| && run[i] == s && j + 1 < |run| && run[j] == t && run[j + 1] == t'
  {
    assert SlotStep(t, t', u);
    hide SlotStep, Harm, Init, Path;
    var b :| Leads(b, s, t);
    Continued(a, b, s, t, t');
    run, i, j := a + b[1..] + [t'], |a| - 1, |a + b[1..]| - 1;
  }
}
