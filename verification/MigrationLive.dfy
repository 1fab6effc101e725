/**
 The migrating store gets its work done: a thread that runs alone finishes, a flush that runs alone
 finishes, and records carry the marks that decide whether a flush moves them up again.
 */
module MigrationLive {
  import opened Options
  import opened Migration
  import opened MigrationProof

  // ---------------------------------------------------------------------------------------
  // A thread alone
  // ---------------------------------------------------------------------------------------

  /** A run of steps of one thread. */
  ghost predicate Alone(run: seq<State>, t: nat) {
    |run| > 0 && forall i :: 0 <= i < |run| - 1 ==> ThreadStep(run[i], run[i + 1], t)
  }

  predicate Finished(pc: Pc) { pc.LDone? || pc.UDone? }

  /** Nobody else has the thread's word locked. */
  ghost predicate Unblocked(s: State, t: nat) {
    Inv(s) && t in s.threads && (HeldBy(s.threads[t]).Some? || s.words[WordOf(s.threads[t].key)] % 2 == 0)
  }

  /** How many steps the thread has to go, an outdated version costing it a round. */
  function ToGo(pc: Pc, word: nat): (n: nat) {
    match pc
    case LStart => 3
    case LReading(ver) => if word == ver then 2 else 5
    case LGot(ver, _) => if word == ver then 1 else 4
    case LFailed(_) => 4
    case LUpgraded(_, _) => 3
    case LPut(_, _) => 2
    case LHold(_, _) => 1
    case UStart => 8
    case UReading(ver) => if word == ver then 7 else 10
    case UGot(ver) => if word == ver then 6 else 9
    case UWant => 5
    case UCas(ver) => if word == ver then 4 else 6
    case ULocked(_) => 3
    case UPut(_) => 2
    case _ => 0
  }

  function Left(s: State, t: nat): (n: nat)
    requires t in s.threads
  {
    ToGo(s.threads[t].pc, s.words[WordOf(s.threads[t].key)])
  }

  /** The thread's next step brings it closer to its end. */
  ghost predicate Closer(s: State, s': State, t: nat) {
    && t in s.threads && t in s'.threads && ThreadStep(s, s', t) && Left(s', t) < Left(s, t)
    && (Finished(s'.threads[t].pc) || HeldBy(s'.threads[t]).Some? || s'.words[WordOf(s'.threads[t].key)] % 2 == 0)
  }

  lemma IsCloser(s: State, s': State, t: nat)
    requires t in s.threads && t in s'.threads && ThreadStep(s, s', t) && s'.threads[t].key == s.threads[t].key
    requires var th, th', w := s.threads[t], s'.threads[t], WordOf(s.threads[t].key);
             && ToGo(th'.pc, s'.words[w]) < ToGo(th.pc, s.words[w])
             && (Finished(th'.pc) || HeldBy(th').Some? || s'.words[w] % 2 == 0)
    ensures Closer(s, s', t)
  {
    hide ThreadStep, WordOf, ToGo;
  }

  lemma LookupCloser(s: State, t: nat) returns (s': State)
    requires Unblocked(s, t) && Looking(s.threads[t].pc) && !Finished(s.threads[t].pc)
    ensures Closer(s, s', t)
  {
    var pc := s.threads[t].pc;
    assert ThreadOk(s, s.threads[t]);
    hide Inv, Closer;
    if pc.LUpgraded? || pc.LPut? || pc.LHold? {
      s' := MigrateCloser(s, t);
    } else {
      s' := SearchCloser(s, t);
    }
  }

  lemma SearchCloser(s: State, t: nat) returns (s': State)
    requires t in s.threads && ThreadOk(s, s.threads[t]) && s.words[WordOf(s.threads[t].key)] % 2 == 0
    requires var pc := s.threads[t].pc; pc.LStart? || pc.LReading? || pc.LGot? || pc.LFailed?
    ensures Closer(s, s', t)
  {
    var th := s.threads[t];
    var w := WordOf(th.key);
    hide Read, WordOf, Closer;
    if th.pc.LStart? {
      s' := Goto(s, t, LReading(s.words[w]));
    } else if th.pc.LReading? {
      s' := Goto(Note(s, t, th.(seen := Latest(s, th.key))), t, LGot(th.pc.ver, PayloadOf(Read(s.db, th.key))));
    } else if th.pc.LGot? {
      s' := Goto(s, t, if s.words[w] == th.pc.ver then LDone(th.pc.val) else LStart);
    } else {
      s' := Goto(s, t, LStart);
    }
    assert ThreadStep(s, s', t);
    IsCloser(s, s', t);
  }

  lemma MigrateCloser(s: State, t: nat) returns (s': State)
    requires t in s.threads && ThreadOk(s, s.threads[t])
    requires s.threads[t].pc.LUpgraded? || s.threads[t].pc.LPut? || s.threads[t].pc.LHold?
    ensures Closer(s, s', t)
  {
    var th := s.threads[t];
    var w := WordOf(th.key);
    hide Read, WordOf, Closer;
    if th.pc.LUpgraded? {
      s' := Goto(s.(db := Put(s.db, th.key, Record(th.pc.val.value, false, true))), t, LPut(th.pc.ver, th.pc.val));
    } else if th.pc.LPut? {
      s' := Goto(s, t, LHold(th.pc.ver, th.pc.val));
    } else {
      s' := Goto(BumpWord(s, w), t, LDone(th.pc.val));
    }
    assert ThreadStep(s, s', t);
    IsCloser(s, s', t);
  }

  lemma UpdateCloser(s: State, t: nat) returns (s': State)
    requires Unblocked(s, t) && !Looking(s.threads[t].pc) && !Finished(s.threads[t].pc)
    ensures Closer(s, s', t)
  {
    var pc := s.threads[t].pc;
    hide Closer, Inv;
    if pc.UStart? || pc.UReading? || pc.UGot? {
      s' := ReadCloser(s, t);
    } else if pc.UWant? || pc.UCas? {
      s' := LockCloser(s, t);
    } else if pc.ULocked? {
      s' := WriteCloser(s, t);
    } else {
      s' := UnlockCloser(s, t);
    }
  }

  lemma ReadCloser(s: State, t: nat) returns (s': State)
    requires t in s.threads && (s.threads[t].pc.UStart? || s.threads[t].pc.UReading? || s.threads[t].pc.UGot?)
    requires s.words[WordOf(s.threads[t].key)] % 2 == 0
    ensures Closer(s, s', t)
  {
    var th := s.threads[t];
    var w := WordOf(th.key);
    hide Inv, Read, WordOf, Closer;
    if th.pc.UStart? {
      s' := Goto(s, t, UReading(s.words[w]));
      assert ThreadStep(s, s', t);
      IsCloser(s, s', t);
    } else if th.pc.UReading? {
      s' := Goto(s, t, UGot(th.pc.ver));
      assert ThreadStep(s, s', t);
      IsCloser(s, s', t);
    } else {
      s' := Goto(s, t, if s.words[w] == th.pc.ver then UWant else UStart);
      assert ThreadStep(s, s', t);
      IsCloser(s, s', t);
    }
  }

  lemma LockCloser(s: State, t: nat) returns (s': State)
    requires t in s.threads && (s.threads[t].pc.UWant? || s.threads[t].pc.UCas?)
    requires s.words[WordOf(s.threads[t].key)] % 2 == 0
    ensures Closer(s, s', t)
  {
    var th := s.threads[t];
    var w := WordOf(th.key);
    hide Inv, Read, WordOf, Closer;
    if th.pc.UWant? {
      s' := Goto(s, t, UCas(s.words[w]));
      assert ThreadStep(s, s', t);
      IsCloser(s, s', t);
    } else {
      s' := if s.words[w] == th.pc.ver then Goto(BumpWord(s, w), t, ULocked(th.pc.ver)) else Goto(s, t, UWant);
      assert ThreadStep(s, s', t);
      IsCloser(s, s', t);
    }
  }

  lemma WriteCloser(s: State, t: nat) returns (s': State)
    requires t in s.threads && s.threads[t].pc.ULocked?
    ensures Closer(s, s', t)
  {
    var th := s.threads[t];
    hide Read, WordOf, Closer;
    s' := Goto(Note(s.(db := Put(s.db, th.key, Record(th.val, false, false)), latest := s.latest[th.key := th.val]),
                    t, th.(writes := th.writes + 1)),
               t, UPut(th.pc.ver));
    assert ThreadStep(s, s', t);
    IsCloser(s, s', t);
  }

  lemma UnlockCloser(s: State, t: nat) returns (s': State)
    requires t in s.threads && s.threads[t].pc.UPut?
    ensures Closer(s, s', t)
  {
    hide Read, WordOf, Closer;
    s' := Goto(BumpWord(s, WordOf(s.threads[t].key)), t, UDone);
    assert ThreadStep(s, s', t);
    IsCloser(s, s', t);
  }

  /** Whatever state it is in, a thread whose word nobody else has locked finishes if it is left alone. */
  lemma {:induction false} FinishesAlone(s: State, t: nat) returns (run: seq<State>)
    requires Unblocked(s, t)
    ensures Alone(run, t) && run[0] == s && t in run[|run| - 1].threads && Finished(run[|run| - 1].threads[t].pc)
    decreases Left(s, t)
  {
    hide Inv, ThreadStep;
    if Finished(s.threads[t].pc) {
      run := [s];
    } else {
      var s';
      if Looking(s.threads[t].pc) {
        s' := LookupCloser(s, t);
      } else {
        s' := UpdateCloser(s, t);
      }
      ThreadStepInv(s, s', t);
      var rest;
      if Finished(s'.threads[t].pc) {
        rest := [s'];
      } else {
        rest := FinishesAlone(s', t);
      }
      run := [s] + rest;
      assert forall i :: 0 < i < |run| ==> run[i] == rest[i - 1];
    }
  }

  /** A lookup with a valid version can take its record up: the record is on top, marked, and the word has moved on. */
  lemma CanMigrate(s: State, t: nat) returns (run: seq<State>)
    requires Inv(s) && t in s.threads && s.threads[t].pc.LGot? && s.threads[t].pc.val.Some?
    requires s.words[WordOf(s.threads[t].key)] == s.threads[t].pc.ver
    ensures Alone(run, t) && run[0] == s
    ensures var s', th := run[|run| - 1], s.threads[t];
            && s'.threads == s.threads[t := th.(pc := LDone(th.pc.val))]
            && s'.db == Put(s.db, th.key, Record(th.pc.val.value, false, true))
            && s'.words == s.words[WordOf(th.key) := th.pc.ver + 2]
  {
    hide Inv, Read;
    var th := s.threads[t];
    var w, ver, val := WordOf(th.key), th.pc.ver, th.pc.val;
    var s1 := Goto(BumpWord(s, w), t, LUpgraded(ver, val));
    var s2 := Goto(s1.(db := Put(s1.db, th.key, Record(val.value, false, true))), t, LPut(ver, val));
    var s3 := Goto(s2, t, LHold(ver, val));
    var s4 := Goto(BumpWord(s3, w), t, LDone(val));
    assert ThreadStep(s, s1, t);
    assert ThreadStep(s1, s2, t);
    assert ThreadStep(s2, s3, t);
    assert ThreadStep(s3, s4, t);
    hide ThreadStep;
    run := [s, s1, s2, s3, s4];
    assert s4.words == s.words[w := ver + 2];
  }

  /** While its word is locked, a thread that asks for it waits where it is. */
  lemma WaitsForWord(s: State, s': State, t: nat)
    requires ThreadStep(s, s', t) && s.words[WordOf(s.threads[t].key)] % 2 == 1
    requires s.threads[t].pc.LStart? || s.threads[t].pc.UStart? || s.threads[t].pc.UWant?
    ensures s' == s
  {
    hide Read, WordOf;
    assert s.threads[t := s.threads[t]] == s.threads;
  }

  // ---------------------------------------------------------------------------------------
  // A flush alone
  // ---------------------------------------------------------------------------------------

  ghost predicate FlushStep(s: State, s': State) {
    || (exists k, want :: FlushPick(s, s', k, want)) || (exists ok :: FlushPut(s, s', ok))
    || FlushMark(s, s') || FlushUnlock(s, s') || FlushEnd(s, s')
  }

  function KeysOf(tables: seq<Table>): (keys: set<nat>) {
    if tables == [] then {} else KeysOf(tables[..|tables| - 1]) + tables[|tables| - 1].Keys
  }

  lemma {:induction false} KeysOfNewest(tables: seq<Table>, k: nat)
    ensures Newest(tables, k).Some? <==> k in KeysOf(tables)
  {
    if tables != [] {
      KeysOfNewest(tables[..|tables| - 1], k);
    }
  }

  ghost function Undecided(s: State): (keys: set<nat>) {
    set k | k in KeysOf(Group(s)) && Pending(s, k)
  }

  function Phase(pc: FlushPc): (n: nat) {
    match pc case FPick => 0 case FMarked(_, _) => 1 case FPut(_, _) => 2 case FLocked(_) => 3
  }

  /** A flush decides a record in the step that looks at it, or gives up its lock with the record decided. */
  lemma DecidedOnce(s: State, s': State, k: nat)
    requires s.flush.Flushing? && s'.flush.Flushing? && Pending(s, k) && Group(s') == Group(s)
    requires !Pending(s', k) && forall q :: q != k ==> Pending(s', q) == Pending(s, q)
    ensures |Undecided(s')| < |Undecided(s)|
  {
    KeysOfNewest(Group(s), k);
    assert Undecided(s') == Undecided(s) - {k};
  }

  lemma SameUndecided(s: State, s': State)
    requires s.flush.Flushing? && s'.flush.Flushing? && Group(s') == Group(s)
    requires s'.flush.kept == s.flush.kept && s'.flush.dropped == s.flush.dropped
    ensures Undecided(s') == Undecided(s)
  {
  }

  lemma PickDecides(s: State, k: nat) returns (s': State)
    requires Inv(s) && Pending(s, k) && s.flush.pc == FPick
    ensures FlushPick(s, s', k, false) && s'.flush.Flushing? && |Undecided(s')| < |Undecided(s)|
  {
    hide Inv, Newest;
    s' := s.(flush := s.flush.(kept := s.flush.kept[k := Newest(Group(s), k).value]));
    DecidedOnce(s, s', k);
  }

  lemma HeldPending(s: State)
    requires Inv(s) && s.flush.Flushing? && !s.flush.pc.FPick?
    ensures Pending(s, s.flush.pc.k)
  {
  }

  /** The next step of a flush: it ends, or has fewer records or less to do for the current one. */
  lemma FlushCloser(s: State) returns (s': State)
    requires Inv(s) && s.flush.Flushing?
    ensures FlushStep(s, s') && Inv(s')
    ensures s'.flush.NoFlush? ||
            |Undecided(s')| < |Undecided(s)| ||
            (Undecided(s') == Undecided(s) && Phase(s'.flush.pc) < Phase(s.flush.pc))
  {
    if s.flush.pc.FPick? {
      if k :| Pending(s, k) {
        s' := PickDecides(s, k);
        FlushPickInv(s, s', k, false);
      } else {
        hide Read, Newest;
        s' := s.(flush := NoFlush, db := s.db.(imm := s.db.imm[s.flush.n..], bottom := s.db.bottom + s.flush.kept));
        assert FlushEnd(s, s');
        FlushEndInv(s, s');
      }
    } else {
      HeldPending(s);
      s' := HeldCloser(s);
    }
    hide Inv;
  }

  lemma HeldCloser(s: State) returns (s': State)
    requires Inv(s) && s.flush.Flushing? && !s.flush.pc.FPick? && Pending(s, s.flush.pc.k)
    ensures FlushStep(s, s') && Inv(s') && s'.flush.Flushing?
    ensures |Undecided(s')| < |Undecided(s)| ||
            (Undecided(s') == Undecided(s) && Phase(s'.flush.pc) < Phase(s.flush.pc))
  {
    hide Read, Newest, Inv;
    var k := s.flush.pc.k;
    var w := WordOf(k);
    var r := Newest(Group(s), k).value.(ref := false, migrated := true);
    match s.flush.pc
    case FLocked(_) =>
      s' := s.(flush := s.flush.(pc := FPut(k, true)), db := Put(s.db, k, r));
      assert FlushPut(s, s', true);
      FlushPutInv(s, s', true);
      SameUndecided(s, s');
    case FPut(_, ok) =>
      s' := s.(flush := s.flush.(table := s.flush.table[w := s.words[w] + 1], pc := FMarked(k, ok)));
      assert FlushMark(s, s');
      FlushMarkInv(s, s');
      SameUndecided(s, s');
    case FMarked(_, ok) =>
      s' := BumpWord(s, w).(flush := if ok then s.flush.(dropped := s.flush.dropped + {k}, pc := FPick)
                                     else s.flush.(kept := s.flush.kept[k := r], pc := FPick));
      assert FlushUnlock(s, s');
      FlushUnlockInv(s, s');
      DecidedOnce(s, s', k);
  }

  ghost predicate FlushRun(run: seq<State>) {
    |run| > 0 && forall i :: 0 <= i < |run| - 1 ==> FlushStep(run[i], run[i + 1])
  }

  /** A flush that is left alone finishes, whatever it has got to. */
  lemma {:induction false} FlushFinishes(s: State) returns (run: seq<State>)
    requires Inv(s)
    ensures FlushRun(run) && run[0] == s && run[|run| - 1].flush.NoFlush?
    decreases s.flush.Flushing?, |Undecided(s)|, if s.flush.Flushing? then Phase(s.flush.pc) else 0
  {
    hide Inv, FlushStep, Undecided;
    if s.flush.NoFlush? {
      run := [s];
    } else {
      var s' := FlushCloser(s);
      var rest := FlushFinishes(s');
      run := [s] + rest;
      assert forall i :: 0 < i < |run| ==> run[i] == rest[i - 1];
    }
  }

  /** Any number of switched-out memtables, up to all of them, can be flushed. */
  lemma FlushCanStart(s: State, n: nat) returns (s': State)
    requires Inv(s) && s.flush.NoFlush? && 1 <= n <= |s.db.imm|
    ensures FlushStart(s, s', n) && Inv(s')
  {
    s' := s.(flush := Flushing(n, s.snapshots[n - 1], map[], {}, FPick), snapshots := s.snapshots[n..]);
    FlushStartInv(s, s', n);
  }

  // ---------------------------------------------------------------------------------------
  // The marks of records
  // ---------------------------------------------------------------------------------------

  /** A flush moves up exactly the migrated and referenced records whose word has not moved, as it can afford. */
  lemma MovesUpIff(s: State, s': State, k: nat, want: bool)
    requires FlushPick(s, s', k, want)
    ensures s'.flush.Flushing?
    ensures s'.flush.pc == FLocked(k) <==>
              var r := Newest(Group(s), k).value; r.migrated && r.ref && want && Unmoved(s, s.flush.table, k)
    ensures s'.flush.pc != FLocked(k) ==> k in s'.flush.kept && s'.flush.kept[k] == Newest(Group(s), k).value
  {
  }

  /** A record that could not be put back goes down as migrated and unreferenced. */
  lemma RefusedGoesDown(s: State, s': State)
    requires FlushUnlock(s, s') && !s.flush.pc.ok
    ensures s'.flush.Flushing? && s.flush.pc.k in s'.flush.kept
    ensures var r := Newest(Group(s), s.flush.pc.k).value;
            s'.flush.kept[s.flush.pc.k] == Record(r.payload, false, true)
  {
  }

  /** The step puts a record of `k` on top for migration. */
  ghost predicate Migrates(s: State, s': State, k: nat) {
    || (exists t :: ThreadStep(s, s', t) && s.threads[t].pc.LUpgraded? && s.threads[t].key == k)
    || (exists ok :: FlushPut(s, s', ok) && s.flush.pc.k == k)
  }

  ghost predicate WritesKey(s: State, s': State, k: nat) {
    || (exists t :: ThreadStep(s, s', t) && s.threads[t].pc.ULocked? && s.threads[t].key == k)
    || (exists v :: PlainPut(s, s', k, v))
  }

  /** The step changes the record of `k` on top. */
  ghost predicate Changes(s: State, s': State, k: nat) {
    k in s'.db.active && (k in s.db.active ==> s'.db.active[k] != s.db.active[k])
  }

  ghost predicate Retags(s: State, s': State, k: nat)
    requires k in s'.db.active
  {
    k in s.db.active && exists i, ref :: Retag(s, s', i, k, ref) && s'.db.active[k] == s.db.active[k].(ref := ref)
  }

  /** A record comes to lie on top unreferenced, and marked exactly if it is a migrated one. */
  lemma MarkedIffMigrated(s: State, s': State, k: nat)
    requires Next(s, s') && Changes(s, s', k)
    ensures var r := s'.db.active[k];
            || (Migrates(s, s', k) && r.migrated && !r.ref)
            || (WritesKey(s, s', k) && !r.migrated && !r.ref)
            || Retags(s, s', k)
  {
    if t :| ThreadStep(s, s', t) {
      ThreadMarks(s, s', t, k);
      hide ThreadStep, Next, Changes;
      assert Migrates(s, s', k) || WritesKey(s, s', k);
    } else {
      hide Migrates, WritesKey, Retags;
      StoreMarks(s, s', k);
    }
  }

  lemma StoreMarks(s: State, s': State, k: nat)
    requires Next(s, s') && Changes(s, s', k) && forall t :: !ThreadStep(s, s', t)
    ensures var r := s'.db.active[k];
            || (Migrates(s, s', k) && r.migrated && !r.ref)
            || (WritesKey(s, s', k) && !r.migrated && !r.ref)
            || Retags(s, s', k)
  {
    hide Read, Newest, ThreadStep, Pending;
    if ok :| FlushPut(s, s', ok) {
      assert Migrates(s, s', k);
    } else if q, v :| PlainPut(s, s', q, v) {
      assert WritesKey(s, s', k);
    } else if i, q, ref :| Retag(s, s', i, q, ref) {
      assert Retags(s, s', k);
    }
  }

  lemma ThreadMarks(s: State, s': State, t: nat, k: nat)
    requires ThreadStep(s, s', t) && k in s'.db.active && (k in s.db.active ==> s'.db.active[k] != s.db.active[k])
    ensures s.threads[t].key == k && !s'.db.active[k].ref
    ensures if s'.db.active[k].migrated then s.threads[t].pc.LUpgraded? else s.threads[t].pc.ULocked?
  {
    hide Read, WordOf;
  }
}
