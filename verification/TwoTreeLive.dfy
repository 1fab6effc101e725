/**
 The two-tree store gets its work done: alone, a lookup finishes, an update finishes exactly if its key
 is there, and an evictor empties its list.
 */
module TwoTreeLive {
  import opened Options
  import opened TwoTree
  import opened TwoTreeProof
  import opened TwoTreeAnswers

  ghost predicate StepOf(s: State, s': State, t: nat) {
    || UpdateStep(s, s', t) || (exists migrate :: LookupStep(s, s', t, migrate))
    || ScanEnd(s, s', t) || EvictStep(s, s', t)
  }

  /** A run of steps of one thread. */
  ghost predicate Alone(run: seq<State>, t: nat) {
    |run| > 0 && forall i :: 0 <= i < |run| - 1 ==> StepOf(run[i], run[i + 1], t)
  }

  lemma Prepend(s: State, rest: seq<State>, t: nat)
    requires Alone(rest, t) && StepOf(s, rest[0], t)
    ensures Alone([s] + rest, t)
  {
    hide StepOf;
    var run := [s] + rest;
    forall i | 0 <= i < |run| - 1 ensures StepOf(run[i], run[i + 1], t) {
      if i > 0 { assert StepOf(rest[i - 1], rest[i], t); }
    }
  }

  // ---------------------------------------------------------------------------------------
  // Lookups and updates
  // ---------------------------------------------------------------------------------------

  /** The thread is no evictor, and nobody else moves its key. */
  ghost predicate Unblocked(s: State, t: nat) {
    && Inv(s) && t in s.threads && !s.threads[t].op.EvictOp?
    && (s.threads[t].pc.UProbe? ==> s.threads[t].op.UpdateOp?)
    && !s.threads[t].pc.Scan? && !s.threads[t].pc.Evict?
    && (Inflight(s, s.threads[t].key) ==> Holds(s.threads[t], s.threads[t].key))
  }

  /** How many steps the thread has to go. */
  function ToGo(pc: Pc, hot: bool, update: bool): (n: nat) {
    (if update && !pc.UProbe? && !pc.Done? then 2 else 0) +
    match pc
    case UProbe => if hot then 1 else 8
    case LProbe => if hot then 1 else 5
    case Miss => if hot then 2 else 4
    case Token => 3
    case ReadCold(_) => 2
    case Filled(_) => 1
    case _ => 0
  }

  function Left(s: State, t: nat): (n: nat)
    requires t in s.threads
  {
    ToGo(s.threads[t].pc, s.threads[t].key in s.hot, s.threads[t].op.UpdateOp?)
  }

  ghost predicate Closer(s: State, s': State, t: nat) {
    && t in s.threads && t in s'.threads && Left(s', t) < Left(s, t)
    && s'.threads[t].key == s.threads[t].key && s'.threads[t].op == s.threads[t].op
    && s'.latest == s.latest && !s'.threads[t].pc.Scan? && !s'.threads[t].pc.Evict?
    && (s'.threads[t].pc.UProbe? ==> s.threads[t].op.UpdateOp?)
    && (Inflight(s', s.threads[t].key) ==> Holds(s'.threads[t], s.threads[t].key))
  }

  /** The update's own step: it writes, or goes to look. */
  lemma UpdateCloser(s: State, t: nat) returns (s': State)
    requires Unblocked(s, t) && s.threads[t].pc.UProbe?
    ensures UpdateStep(s, s', t) && t in s'.threads && (s'.threads[t].pc.Done? || Closer(s, s', t))
  {
    hide Inv;
    var k, v := s.threads[t].key, s.threads[t].op.val;
    if k in s.hot {
      var e := s.hot[k].(payload := v, modified := true, referenced := true);
      s' := Goto(SetHot(s, k, e).(latest := s.latest[k := v]), t, Done(None));
    } else {
      s' := Goto(s, t, LProbe);
    }
  }

  lemma ProbeCloser(s: State, t: nat) returns (s': State)
    requires Unblocked(s, t) && (s.threads[t].pc.LProbe? || s.threads[t].pc.Miss?)
    ensures LookupStep(s, s', t, true) && Closer(s, s', t)
  {
    hide Inv;
    var th := s.threads[t];
    var k := th.key;
    if th.pc.LProbe? {
      if k in s.hot {
        s' := Goto(SetHot(s, k, s.hot[k].(referenced := true)), t, Finish(th, Some(s.hot[k].payload)));
      } else {
        s' := Goto(s, t, Miss);
      }
    } else {
      if k in s.hot {
        s' := Goto(s, t, LProbe);
      } else {
        s' := Goto(SetHot(s, k, Entry(EMPTY, false, true, true)), t, Token);
      }
    }
  }

  lemma ColdCloser(s: State, t: nat) returns (s': State)
    requires Unblocked(s, t) && (s.threads[t].pc.Token? || s.threads[t].pc.ReadCold? || s.threads[t].pc.Filled?)
    requires s.threads[t].op.UpdateOp? ==> s.threads[t].key in s.latest
    ensures LookupStep(s, s', t, true) && Closer(s, s', t)
  {
    var th := s.threads[t];
    var k := th.key;
    assert ThreadOk(s, th);
    assert Holds(th, k) ==> k in s.hot;
    hide Inv, ThreadOk;
    if th.pc.ReadCold? {
      s' := FillCloser(s, t);
    } else if th.pc.Token? {
      s' := Goto(s, t, ReadCold(Get(s.cold, k)));
    } else {
      s' := Goto(DropCold(s, k), t, Finish(th, Some(th.pc.val)));
    }
  }

  lemma FillCloser(s: State, t: nat) returns (s': State)
    requires t in s.threads && s.threads[t].pc.ReadCold? && !s.threads[t].op.EvictOp? && s.threads[t].key in s.hot
    requires s.threads[t].op.UpdateOp? ==> s.threads[t].pc.res.Some?
    ensures LookupStep(s, s', t, true) && Closer(s, s', t)
  {
    var th := s.threads[t];
    var k := th.key;
    if th.pc.res.Some? {
      var filled := SetHot(s, k, Entry(th.pc.res.value, false, true, false));
      s' := if s.inclusive then Goto(filled, t, Finish(th, th.pc.res)) else Goto(filled, t, Filled(th.pc.res.value));
    } else {
      s' := Goto(DropHot(s, k), t, Finish(th, None));
    }
  }

  /** A lookup left alone finishes, and so does an update of a key that has been written. */
  lemma {:induction false} FinishesAlone(s: State, t: nat) returns (run: seq<State>)
    requires Unblocked(s, t) && (s.threads[t].op.UpdateOp? ==> s.threads[t].key in s.latest)
    ensures Alone(run, t) && run[0] == s && t in run[|run| - 1].threads && run[|run| - 1].threads[t].pc.Done?
    decreases Left(s, t)
  {
    hide Inv, UpdateStep, LookupStep, Inflight, Holds;
    var pc := s.threads[t].pc;
    if pc.Done? {
      run := [s];
    } else {
      var s';
      if pc.UProbe? {
        s' := UpdateCloser(s, t);
        UpdateInv(s, s', t);
      } else {
        if pc.LProbe? || pc.Miss? {
          s' := ProbeCloser(s, t);
        } else {
          s' := ColdCloser(s, t);
        }
        LookupInv(s, s', t, true);
      }
      var rest := [s'];
      if !s'.threads[t].pc.Done? {
        rest := FinishesAlone(s', t);
      }
      Prepend(s, rest, t);
      run := [s] + rest;
    }
  }

  /** What has been written stays written. */
  lemma {:induction false} WrittenStays(run: seq<State>, i: nat, j: nat, k: nat)
    requires IsRun(run) && i <= j < |run| && k in run[i].latest
    ensures k in run[j].latest
    decreases j
  {
    hide Next;
    if i < j {
      WrittenStays(run, i, j - 1, k);
      assert Next(run[j - 1], run[j - 1 + 1]);
      LatestChanges(run[j - 1], run[j]);
    }
  }

  /** An update of a key that was never written is never over. */
  lemma AbsentNeverDone(run: seq<State>, i: nat, t: nat)
    requires IsRun(run) && i < |run| && t in run[i].threads && run[i].threads[t].op.UpdateOp?
    requires run[i].threads[t].key !in run[i].latest
    ensures !run[i].threads[t].pc.Done?
  {
    hide Next;
    if run[i].threads[t].pc.Done? {
      var j := WritingStep(run, i, t);
      WrittenStays(run, j + 1, i, run[i].threads[t].key);
    }
  }

  // ---------------------------------------------------------------------------------------
  // Evictors
  // ---------------------------------------------------------------------------------------

  function Rank(pc: Pc): (n: nat) {
    match pc
    case Scan(list) => 3 * |list| + 3
    case Evict(list, phase) => 3 * |list| + (if phase.Decide? then 2 else if phase.InsertCold? then 1 else 0)
    case _ => 0
  }

  /** The evictor's step after the walk: its entry is decided on, written to the cold tree, or removed. */
  lemma EvictCloser(s: State, t: nat) returns (s': State)
    requires Inv(s) && t in s.threads && s.threads[t].pc.Evict? && s.threads[t].pc.list != []
    ensures EvictStep(s, s', t) && t in s'.threads && s'.threads[t].pc.Evict?
    ensures s'.threads == s.threads[t := s'.threads[t]] && Rank(s'.threads[t].pc) < Rank(s.threads[t].pc)
    ensures var k, pc := s.threads[t].pc.list[0].key, s.threads[t].pc;
            && s'.hot == (if pc.phase.RemoveHot? then s.hot - {k} else s.hot)
            && s'.threads[t].pc.list == if pc.phase.RemoveHot? then pc.list[1..] else pc.list
  {
    assert ThreadOk(s, s.threads[t]);
    var list, phase := s.threads[t].pc.list, s.threads[t].pc.phase;
    var k, e := list[0].key, list[0].entry;
    assert k in s.hot;
    hide Inv, ThreadOk;
    match phase
    case Decide =>
      s' := if s.inclusive && !e.modified then Goto(s, t, Evict(list, RemoveHot))
            else if s.inclusive && k in s.cold then Goto(SetCold(s, k, e.payload), t, Evict(list, RemoveHot))
            else Goto(s, t, Evict(list, InsertCold));
    case InsertCold =>
      s' := Goto(if k in s.cold then s else SetCold(s, k, e.payload), t, Evict(list, RemoveHot));
    case RemoveHot => s' := Goto(DropHot(s, k), t, Evict(list[1..], Decide));
  }

  lemma NoGapCalm(s: State, s': State)
    requires forall k :: !Gap(s, k)
    ensures Calm(s, s')
  {
  }

  lemma NoGapStays(s: State, s': State, t: nat)
    requires (forall k :: !Gap(s, k)) && t in s'.threads && s'.threads == s.threads[t := s'.threads[t]]
    requires !s'.threads[t].pc.Filled?
    ensures forall k :: !Gap(s', k)
  {
    forall k ensures !Gap(s', k) {
      assert !Gap(s, k);
    }
  }

  /** An evictor left alone, nobody being in the gap, takes everything on its list out of the hot tree. */
  lemma {:induction false} EvictsAlone(s: State, t: nat) returns (run: seq<State>)
    requires Inv(s) && t in s.threads && s.threads[t].pc.Evict? && forall k :: !Gap(s, k)
    ensures Alone(run, t) && run[0] == s && t in run[|run| - 1].threads && run[|run| - 1].threads[t].pc.Evict?
    ensures run[|run| - 1].threads[t].pc.list == []
    ensures forall i :: 0 <= i < |s.threads[t].pc.list| ==> s.threads[t].pc.list[i].key !in run[|run| - 1].hot
    ensures run[|run| - 1].hot.Keys <= s.hot.Keys
    decreases Rank(s.threads[t].pc)
  {
    hide Inv, EvictStep, Gap;
    if s.threads[t].pc.list == [] {
      run := [s];
    } else {
      var s' := EvictCloser(s, t);
      NoGapCalm(s, s');
      EvictInv(s, s', t);
      NoGapStays(s, s', t);
      var rest := EvictsAlone(s', t);
      Prepend(s, rest, t);
      run := [s] + rest;
      var list, list', last := s.threads[t].pc.list, s'.threads[t].pc.list, rest[|rest| - 1];
      forall i | 0 <= i < |list| ensures list[i].key !in last.hot {
        if s.threads[t].pc.phase.RemoveHot? {
          if i > 0 { assert list'[i - 1] == list[i]; }
        } else {
          assert list'[i] == list[i];
        }
      }
    }
  }
}
