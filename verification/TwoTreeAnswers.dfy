/**
 What the two-tree store does for its callers: when an update is over, what a lookup returns, which
 steps write, and which entries are dirty or referenced.
 */
module TwoTreeAnswers {
  import opened Options
  import opened TwoTree
  import opened TwoTreeProof

  // ---------------------------------------------------------------------------------------
  // What a step does
  // ---------------------------------------------------------------------------------------

  /** The thread's update takes effect and is over: its payload replaces that of its key, nothing else changes. */
  ghost predicate Writes(s: State, s': State, t: nat) {
    && t in s.threads && s.threads[t].op.UpdateOp? && !s.threads[t].pc.Done?
    && s'.threads == s.threads[t := s.threads[t].(pc := Done(None))]
    && var k, v := s.threads[t].key, s.threads[t].op.val;
       && k in s.hot && !s.hot[k].inflight
       && s'.hot == s.hot[k := Entry(v, true, true, false)] && s'.cold == s.cold && s'.latest == s.latest[k := v]
  }

  /** The clock clears the reference bit of a settled entry. */
  ghost predicate Cleared(s: State, s': State, t: nat, k: nat) {
    && ScanStep(s, s', t, k) && s.hot[k].referenced && !s.hot[k].inflight
    && s'.hot == s.hot[k := s.hot[k].(referenced := false)]
  }

  /** An entry gets dirty in no step of this kind, and unreferenced only by the clock. */
  ghost predicate BitsKept(s: State, s': State, t: nat, k: nat) {
    && (k in s'.hot && s'.hot[k].modified ==> k in s.hot && s.hot[k].modified)
    && (k in s.hot && k in s'.hot && s.hot[k].referenced ==> s'.hot[k].referenced || Cleared(s, s', t, k))
  }

  /** A step of thread `t` concerning key `k` that is not a write: no other thread and no other key is touched. */
  ghost predicate Acts(s: State, s': State, t: nat, k: nat) {
    && t in s.threads && t in s'.threads && s'.threads == s.threads[t := s'.threads[t]]
    && s'.threads[t].op == s.threads[t].op && s'.threads[t].key == s.threads[t].key && !s.threads[t].pc.Done?
    && (s.threads[t].op.UpdateOp? ==> !s'.threads[t].pc.Done?)
    && s'.latest == s.latest && OnlyAt(s, s', k)
  }

  lemma ProbeDoes(s: State, s': State, t: nat, migrate: bool)
    requires LookupStep(s, s', t, migrate) && (s.threads[t].pc.LProbe? || s.threads[t].pc.Miss?)
    ensures Acts(s, s', t, s.threads[t].key)
  {
  }

  lemma ProbeKeepsBits(s: State, s': State, t: nat, migrate: bool)
    requires LookupStep(s, s', t, migrate) && (s.threads[t].pc.LProbe? || s.threads[t].pc.Miss?)
    ensures BitsKept(s, s', t, s.threads[t].key)
  {
    hide Cleared;
  }

  lemma ColdDoes(s: State, s': State, t: nat, migrate: bool)
    requires LookupStep(s, s', t, migrate) && !s.threads[t].pc.LProbe? && !s.threads[t].pc.Miss?
    ensures Acts(s, s', t, s.threads[t].key)
  {
    if s.threads[t].pc.ReadCold? {
      assert Acts(s, s', t, s.threads[t].key);
    }
  }

  lemma ColdKeepsBits(s: State, s': State, t: nat, migrate: bool)
    requires LookupStep(s, s', t, migrate) && !s.threads[t].pc.LProbe? && !s.threads[t].pc.Miss?
    ensures BitsKept(s, s', t, s.threads[t].key)
  {
    hide Cleared, Get;
  }

  /** No step of a lookup ends an update, or writes. */
  lemma LookupDoes(s: State, s': State, t: nat, migrate: bool)
    requires LookupStep(s, s', t, migrate)
    ensures t in s.threads && Acts(s, s', t, s.threads[t].key) && BitsKept(s, s', t, s.threads[t].key)
  {
    var pc := s.threads[t].pc;
    hide Acts, BitsKept, LookupStep;
    if pc.LProbe? || pc.Miss? {
      ProbeDoes(s, s', t, migrate);
      ProbeKeepsBits(s, s', t, migrate);
    } else {
      ColdDoes(s, s', t, migrate);
      ColdKeepsBits(s, s', t, migrate);
    }
  }

  lemma ScanDoes(s: State, s': State, t: nat, k: nat)
    requires ScanStep(s, s', t, k)
    ensures Acts(s, s', t, k) && BitsKept(s, s', t, k) && s.threads[t].op.EvictOp?
  {
  }

  lemma ScanEndDoes(s: State, s': State, t: nat, k: nat)
    requires ScanEnd(s, s', t)
    ensures Acts(s, s', t, k) && BitsKept(s, s', t, k) && s.threads[t].op.EvictOp?
  {
  }

  lemma EvictDoes(s: State, s': State, t: nat)
    requires EvictStep(s, s', t)
    ensures exists k :: Acts(s, s', t, k) && BitsKept(s, s', t, k)
    ensures s.threads[t].op.EvictOp?
  {
    EvictsOnly(s, s', t);
    hide Acts, EvictStep, Cleared;
  }

  lemma EvictsOnly(s: State, s': State, t: nat)
    requires EvictStep(s, s', t)
    ensures Acts(s, s', t, s.threads[t].pc.list[0].key) && s'.hot in {s.hot, s.hot - {s.threads[t].pc.list[0].key}}
  {
  }

  /** An update waits, moves on to its lookup, or writes. */
  lemma UpdateDoes(s: State, s': State, t: nat)
    requires UpdateStep(s, s', t)
    ensures Writes(s, s', t) || (Acts(s, s', t, s.threads[t].key) && BitsKept(s, s', t, s.threads[t].key))
    ensures t in s.threads && s.threads[t].op.UpdateOp?
    ensures t in s'.threads && s'.threads == s.threads[t := s'.threads[t]]
  {
    hide Cleared;
  }

  /** Every step is a write, an insert, the start of a thread, or concerns one thread and one key. */
  lemma StepDoes(s: State, s': State)
    requires Next(s, s')
    ensures
      || (exists t :: Writes(s, s', t))
      || (exists k, v :: Insert(s, s', k, v))
      || (exists t, op, k :: Spawn(s, s', t, op, k))
      || (exists t, k :: Acts(s, s', t, k) && BitsKept(s, s', t, k))
  {
    hide UpdateStep, LookupStep, ScanStep, ScanEnd, EvictStep, Acts, BitsKept, Writes, Insert, Spawn;
    if t :| UpdateStep(s, s', t) { UpdateDoes(s, s', t); }
    else if t, migrate :| LookupStep(s, s', t, migrate) { LookupDoes(s, s', t, migrate); }
    else if t, k :| ScanStep(s, s', t, k) { ScanDoes(s, s', t, k); }
    else if t :| ScanEnd(s, s', t) { ScanEndDoes(s, s', t, 0); }
    else if t :| EvictStep(s, s', t) { EvictDoes(s, s', t); }
  }

  // ---------------------------------------------------------------------------------------
  // Updates
  // ---------------------------------------------------------------------------------------

  /** A thread keeps what it is for, stays done, and an update gets done only by writing. */
  ghost predicate Keeps(s: State, s': State, t: nat) {
    && t in s.threads && t in s'.threads
    && var th, th' := s.threads[t], s'.threads[t];
       && th'.op == th.op && th'.key == th.key && (th.pc.Done? ==> th' == th)
       && (th.op.UpdateOp? && th'.pc.Done? && !th.pc.Done? ==> Writes(s, s', t))
  }

  lemma StepKeeps(s: State, s': State, t: nat)
    requires Next(s, s') && t in s.threads
    ensures Keeps(s, s', t)
  {
    hide Next, OnlyAt, BitsKept;
    StepDoes(s, s');
  }

  /** Lookups and updates start with their probe of the hot tree, evictors with nothing on their list. */
  predicate AtStart(th: Thread) {
    && (th.pc.LProbe? || th.pc.UProbe? || th.pc == Scan([]))
    && (th.op.LookupOp? <==> th.pc.LProbe?) && (th.op.UpdateOp? <==> th.pc.UProbe?)
  }

  /** Threads appear at their start. */
  lemma Started(s: State, s': State, t: nat)
    requires Next(s, s') && t in s'.threads
    ensures t in s.threads || (AtStart(s'.threads[t]) && Result(s'.threads[t].pc).None?)
  {
    hide Next, OnlyAt, BitsKept, Get;
    StepDoes(s, s');
  }

  /** What was last written to a key changes only when an update writes, or with an insert. */
  lemma LatestChanges(s: State, s': State)
    requires Next(s, s')
    ensures s'.latest == s.latest || (exists t :: Writes(s, s', t)) || exists k, v :: Insert(s, s', k, v)
  {
    hide Next, OnlyAt, BitsKept, Writes, Insert;
    StepDoes(s, s');
  }

  lemma {:induction false} DoneStays(run: seq<State>, i: nat, j: nat, t: nat)
    requires IsRun(run) && i <= j < |run| && t in run[i].threads && run[i].threads[t].pc.Done?
    ensures t in run[j].threads && run[j].threads[t] == run[i].threads[t]
    decreases j
  {
    hide Next, Writes;
    if i < j {
      DoneStays(run, i, j - 1, t);
      assert Next(run[j - 1], run[j - 1 + 1]);
      StepKeeps(run[j - 1], run[j], t);
    }
  }

  lemma {:induction false} WritingStep(run: seq<State>, i: nat, t: nat) returns (j: nat)
    requires IsRun(run) && i < |run| && t in run[i].threads
    requires run[i].threads[t].op.UpdateOp? && run[i].threads[t].pc.Done?
    ensures j < i && t in run[j].threads && Writes(run[j], run[j + 1], t)
    ensures run[j].threads[t].op == run[i].threads[t].op && run[j].threads[t].key == run[i].threads[t].key
  {
    hide Next, Writes;
    assert i > 0;
    assert Next(run[i - 1], run[i - 1 + 1]);
    Started(run[i - 1], run[i], t);
    StepKeeps(run[i - 1], run[i], t);
    if run[i - 1].threads[t].pc.Done? {
      j := WritingStep(run, i - 1, t);
    } else {
      j := i - 1;
    }
  }

  lemma WritesOnce(run: seq<State>, i: nat, j: nat, t: nat)
    requires IsRun(run) && i < j < |run| - 1 && Writes(run[i], run[i + 1], t)
    ensures !Writes(run[j], run[j + 1], t)
  {
    DoneStays(run, i + 1, j, t);
    hide Next;
  }

  /** An update that is over has written in exactly one step. */
  lemma UpdateHasWritten(run: seq<State>, i: nat, t: nat) returns (j: nat)
    requires IsRun(run) && i < |run| && t in run[i].threads
    requires run[i].threads[t].op.UpdateOp? && run[i].threads[t].pc.Done?
    ensures j < i && t in run[j].threads && Writes(run[j], run[j + 1], t)
    ensures run[j].threads[t].op == run[i].threads[t].op && run[j].threads[t].key == run[i].threads[t].key
    ensures forall m :: 0 <= m < i && m != j ==> !Writes(run[m], run[m + 1], t)
  {
    hide Next, Writes;
    j := WritingStep(run, i, t);
    forall m | 0 <= m < i && m != j ensures !Writes(run[m], run[m + 1], t) {
      if m < j {
        if Writes(run[m], run[m + 1], t) { WritesOnce(run, m, j, t); }
      } else {
        WritesOnce(run, j, m, t);
      }
    }
  }

  // ---------------------------------------------------------------------------------------
  // Lookups
  // ---------------------------------------------------------------------------------------

  lemma LookupMoves(s: State, s': State, t: nat)
    requires Next(s, s') && t in s.threads && s.threads[t].op.LookupOp? && t in s'.threads
    ensures s'.threads[t] == s.threads[t] || exists migrate :: LookupStep(s, s', t, migrate)
  {
    hide UpdateStep, LookupStep, ScanStep, ScanEnd, EvictStep, BitsKept, OnlyAt, Writes;
    if u :| UpdateStep(s, s', u) { UpdateDoes(s, s', u); }
    else if u, migrate :| LookupStep(s, s', u, migrate) { LookupDoes(s, s', u, migrate); }
    else if u, k :| ScanStep(s, s', u, k) { ScanDoes(s, s', u, k); }
    else if u :| ScanEnd(s, s', u) { ScanEndDoes(s, s', u, 0); }
    else if u :| EvictStep(s, s', u) { EvictDoes(s, s', u); }
  }

  /** Every finished lookup returns what was last written to its key, or that nothing was, at one of its steps. */
  lemma {:induction false} LookupReturnsLatest(run: seq<State>, i: nat, t: nat) returns (j: nat)
    requires IsRun(run) && CalmRun(run) && i < |run| && t in run[i].threads
    requires run[i].threads[t].op.LookupOp? && Result(run[i].threads[t].pc).Some?
    ensures j < i && t in run[j].threads && Result(run[j].threads[t].pc).None?
    ensures Result(run[i].threads[t].pc).value == Get(run[j].latest, run[i].threads[t].key)
  {
    hide Next, Calm, LookupStep, Get, Writes;
    assert i > 0;
    assert Next(run[i - 1], run[i - 1 + 1]);
    Started(run[i - 1], run[i], t);
    StepKeeps(run[i - 1], run[i], t);
    LookupMoves(run[i - 1], run[i], t);
    if run[i - 1].threads[t] != run[i].threads[t] {
      var migrate :| LookupStep(run[i - 1], run[i], t, migrate);
      assert LookupStep(run[i - 1], run[i - 1 + 1], t, migrate);
      LookupIsLatest(run, i - 1, t, migrate);
    }
    if Result(run[i - 1].threads[t].pc).Some? {
      j := LookupReturnsLatest(run, i - 1, t);
    } else {
      j := i - 1;
    }
  }

  /** A lookup that read the cold tree leaves its key in the hot tree exactly if it found it and was to migrate it. */
  lemma MigratesIfWanted(s: State, s': State, t: nat, migrate: bool)
    requires LookupStep(s, s', t, migrate) && s.threads[t].pc.ReadCold?
    ensures var k := s.threads[t].key;
            && (k in s'.hot <==> migrate && s.threads[t].pc.res.Some?)
            && (k in s'.hot ==> Some(s'.hot[k].payload) == s.threads[t].pc.res && !s'.hot[k].inflight)
            && (t in s'.threads && (s'.threads[t].pc.Filled? <==> k in s'.hot && !s.inclusive))
  {
  }

  // ---------------------------------------------------------------------------------------
  // Dirty and referenced entries
  // ---------------------------------------------------------------------------------------

  /** An entry becomes dirty only by an update of its key, or by an insert in inclusive mode. */
  lemma DirtyByWrites(s: State, s': State, k: nat)
    requires Next(s, s') && k in s'.hot && s'.hot[k].modified
    ensures
      || (k in s.hot && s.hot[k].modified)
      || (exists t :: Writes(s, s', t) && s.threads[t].key == k)
      || (s.inclusive && exists v :: Insert(s, s', k, v))
  {
    hide Next, Cleared;
    StepDoes(s, s');
    if t, q :| Acts(s, s', t, q) && BitsKept(s, s', t, q) {
      assert q != k ==> Get(s'.hot, k) == Get(s.hot, k);
    }
  }

  lemma ReferenceLost(s: State, s': State, k: nat)
    requires Next(s, s') && k in s.hot && s.hot[k].referenced && k in s'.hot && !s'.hot[k].referenced
    ensures exists t :: Cleared(s, s', t, k)
  {
    hide Next, Cleared;
    StepDoes(s, s');
    if t, q :| Acts(s, s', t, q) && BitsKept(s, s', t, q) {
      assert q != k ==> Get(s'.hot, k) == Get(s.hot, k);
    }
  }

  /** An entry stops being referenced only when the clock passes it: a used entry gets a second chance. */
  lemma {:induction false} SecondChance(run: seq<State>, i: nat, j: nat, k: nat) returns (m: nat, t: nat)
    requires IsRun(run) && i <= j < |run| && k in run[i].hot && run[i].hot[k].referenced
    requires (forall m :: i <= m <= j ==> k in run[m].hot) && !run[j].hot[k].referenced
    ensures i <= m < j && Cleared(run[m], run[m + 1], t, k)
    decreases j
  {
    hide Next, Cleared;
    assert Next(run[j - 1], run[j - 1 + 1]);
    if run[j - 1].hot[k].referenced {
      ReferenceLost(run[j - 1], run[j], k);
      m := j - 1;
      t :| Cleared(run[j - 1], run[j], t, k);
    } else {
      m, t := SecondChance(run, i, j - 1, k);
    }
  }

  /** Whoever is served from the hot tree, installs or fills an entry there, or writes to it leaves it referenced. */
  lemma UseReferences(s: State, s': State, t: nat, migrate: bool)
    requires UpdateStep(s, s', t) || LookupStep(s, s', t, migrate)
    ensures var k, pc := s.threads[t].key, s.threads[t].pc;
            && (pc.UProbe? || pc.LProbe? ==> (k in s.hot && !s.hot[k].inflight ==> k in s'.hot && s'.hot[k].referenced))
            && (pc.Miss? || pc.ReadCold? ==> (k in s'.hot ==> s'.hot[k].referenced || (k in s.hot && pc.Miss?)))
  {
    hide Get;
  }

  /** An evictor takes the tokens of settled entries only, and only of unreferenced ones. */
  lemma TakesUnreferenced(s: State, s': State, t: nat, k: nat)
    requires ScanStep(s, s', t, k) && t in s'.threads && s'.threads[t] != s.threads[t]
    ensures !s.hot[k].referenced && !s.hot[k].inflight
    ensures k in s'.hot && s'.hot[k].inflight
    ensures s'.threads[t].pc == Scan(s.threads[t].pc.list + [Item(k, s'.hot[k])])
  {
  }
}
