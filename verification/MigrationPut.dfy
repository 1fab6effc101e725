/**
 A put takes no lock. If a flush or a lookup may still put back an older record of the key, the put
 can be overtaken by it, and reads return the older payload from then on. Puts of which this is not
 so are the settled ones.
 */
module MigrationPut {
  import opened Options
  import opened Migration
  import opened MigrationProof

  ghost predicate Go(s: State, s': State) {
    Next(s, s') && Orderly(s, s')
  }

  ghost predicate Path(path: seq<State>) {
    |path| > 0 && forall i :: 0 <= i < |path| - 1 ==> Go(path[i], path[i + 1])
  }

  /** Reading the key does not give the payload last written. */
  predicate Stale(s: State, k: nat) {
    PayloadOf(Read(s.db, k)) != Latest(s, k)
  }

  ghost predicate EndsStale(path: seq<State>, k: nat) { |path| > 0 && Stale(path[|path| - 1], k) }

  /** Whatever orderly steps follow, reads give the payload last written. */
  ghost predicate NeverStale(s: State) {
    forall path, k :: Path(path) && path[0] == s ==> !EndsStale(path, k)
  }

  lemma {:induction false} PathInv(path: seq<State>, i: nat)
    requires Path(path) && Inv(path[0]) && i < |path|
    ensures Inv(path[i])
  {
    if i > 0 {
      PathInv(path, i - 1);
      assert Go(path[i - 1], path[i - 1 + 1]);
      hide Inv, Next, Orderly;
      NextInv(path[i - 1], path[i]);
    }
  }

  lemma InvNeverStale(s: State)
    requires Inv(s)
    ensures NeverStale(s)
  {
    forall path, k | Path(path) && path[0] == s ensures !EndsStale(path, k) {
      PathInv(path, |path| - 1);
      assert ReadsLatest(path[|path| - 1]);
    }
  }

  /** A step that changes more than a put does is orderly. */
  lemma NoPut(s: State, s': State)
    requires s'.words != s.words || s'.flush != s.flush || s'.threads != s.threads || s'.db.imm != s.db.imm
    ensures Orderly(s, s')
  {
  }

  // ---------------------------------------------------------------------------------------
  // A flush overtakes a put
  // ---------------------------------------------------------------------------------------

  /** Where the newest record of a key is. */
  lemma {:induction false} NewestAt(tables: seq<Table>, k: nat) returns (j: nat)
    requires Newest(tables, k).Some?
    ensures j < |tables| && k in tables[j] && Newest(tables, k) == Some(tables[j][k])
    ensures forall r :: Newest(tables[j := WithRecord(tables[j], k, r)], k) == Some(r)
    decreases |tables|
  {
    var last := |tables| - 1;
    if k in tables[last] {
      j := last;
    } else {
      j := NewestAt(tables[..last], k);
      forall r ensures Newest(tables[j := WithRecord(tables[j], k, r)], k) == Some(r) {
        assert tables[j := WithRecord(tables[j], k, r)][..last] == tables[..last][j := WithRecord(tables[j], k, r)];
      }
    }
  }

  /** A memtable copied with an unmoved word holds a migrated record of `k` with the payload `p`. */
  ghost predicate Waiting(s: State, i: nat, k: nat, p: int) {
    && s.flush.NoFlush? && i < |s.snapshots| == |s.db.imm| && Unmoved(s, s.snapshots[i], k)
    && Movable(s.db.imm[..i + 1], k) == Some(p)
  }

  /** A read sets the reference bit of that record. */
  lemma Referenced(s: State, i: nat, k: nat, p: int) returns (path: seq<State>)
    requires Waiting(s, i, k, p)
    ensures Path(path) && path[0] == s
    ensures var s' := path[|path| - 1];
            Waiting(s', i, k, p) && Newest(s'.db.imm[..i + 1], k).value.ref && s'.latest == s.latest
  {
    var imm := s.db.imm;
    var j := NewestAt(imm[..i + 1], k);
    var r: Record := imm[j][k];
    if r.ref {
      path := [s];
    } else {
      r := r.(ref := true);
      var s' := s.(db := s.db.(imm := imm[j := imm[j][k := r]]));
      assert s'.db.imm[..i + 1] == imm[..i + 1][j := WithRecord(imm[j], k, r)];
      assert Retag(s, s', j, k, true);
      assert s'.db.imm[j] != imm[j];
      NoPut(s, s');
      hide Retag, Orderly;
      path := [s, s'];
    }
  }

  /** Flushing up to that memtable puts the record back. */
  lemma FlushedBack(s: State, i: nat, k: nat, p: int) returns (path: seq<State>)
    requires Waiting(s, i, k, p) && Newest(s.db.imm[..i + 1], k).value.ref && Latest(s, k) != Some(p)
    ensures Path(path) && path[0] == s && EndsStale(path, k)
  {
    var n, w := i + 1, WordOf(k);
    var f := Flushing(n, s.snapshots[i], map[], {}, FPick);
    var s1 := s.(flush := f, snapshots := s.snapshots[n..]);
    assert FlushStart(s, s1, n);
    assert Group(s1) == s.db.imm[..n] && Pending(s1, k);
    var s2 := BumpWord(s1, w).(flush := f.(pc := FLocked(k)));
    assert FlushPick(s1, s2, k, true);
    PutBack(s2, k, p);
    var s3 := s2.(flush := s2.flush.(pc := FPut(k, true)),
                  db := Put(s2.db, k, Newest(Group(s2), k).value.(ref := false, migrated := true)));
    NoPut(s, s1);
    NoPut(s1, s2);
    NoPut(s2, s3);
    hide Orderly, Stale;
    path := [s, s1, s2, s3];
  }

  lemma PutBack(s: State, k: nat, p: int)
    requires s.flush.Flushing? && s.flush.pc == FLocked(k) && Movable(Group(s), k) == Some(p) && Latest(s, k) != Some(p)
    ensures var r := Newest(Group(s), k).value.(ref := false, migrated := true);
            var s' := s.(flush := s.flush.(pc := FPut(k, true)), db := Put(s.db, k, r));
            FlushPut(s, s', true) && Stale(s', k)
  {
  }

  lemma JoinPaths(a: seq<State>, b: seq<State>) returns (path: seq<State>)
    requires Path(a) && Path(b) && a[|a| - 1] == b[0]
    ensures Path(path) && path[0] == a[0] && path[|path| - 1] == b[|b| - 1]
  {
    hide Go;
    path := a + b[1..];
    forall i | 0 <= i < |path| - 1 ensures Go(path[i], path[i + 1]) {
      if i < |a| - 1 {
        assert Go(a[i], a[i + 1]);
      } else {
        assert Go(b[i - (|a| - 1)], b[i - (|a| - 1) + 1]);
      }
    }
  }

  /** So a put over such a record can be overtaken. */
  lemma FlushOvertakes(s: State, i: nat, k: nat, p: int) returns (path: seq<State>)
    requires Waiting(s, i, k, p) && Latest(s, k) != Some(p)
    ensures Path(path) && path[0] == s && EndsStale(path, k)
  {
    hide Go, Waiting, Stale;
    var a := Referenced(s, i, k, p);
    var b := FlushedBack(a[|a| - 1], i, k, p);
    path := JoinPaths(a, b);
  }

  // ---------------------------------------------------------------------------------------
  // A lookup overtakes a put
  // ---------------------------------------------------------------------------------------

  /** A lookup holding the lock puts its record. */
  lemma LookupPuts(s: State, t: nat, p: int) returns (s': State)
    requires t in s.threads && s.threads[t].pc.LUpgraded? && s.threads[t].pc.val == Some(p)
    requires Latest(s, s.threads[t].key) != Some(p)
    ensures Go(s, s') && Stale(s', s.threads[t].key)
  {
    var th := s.threads[t];
    s' := Goto(s.(db := Put(s.db, th.key, Record(p, false, true))), t, LPut(th.pc.ver, th.pc.val));
    assert ThreadStep(s, s', t);
    NoPut(s, s');
  }

  /** A lookup that has read the older record gets the lock and puts it. */
  lemma LookupOvertakes(s: State, t: nat, p: int) returns (path: seq<State>)
    requires t in s.threads && Carried(s, s.threads[t]) == Some(p) && Latest(s, s.threads[t].key) != Some(p)
    requires !s.threads[t].pc.LPut? && !s.threads[t].pc.LHold?
    ensures Path(path) && path[0] == s && EndsStale(path, s.threads[t].key)
  {
    var th := s.threads[t];
    if th.pc.LGot? {
      var s1 := Goto(BumpWord(s, WordOf(th.key)), t, LUpgraded(th.pc.ver, th.pc.val));
      assert ThreadStep(s, s1, t);
      NoPut(s, s1);
      var s2 := LookupPuts(s1, t, p);
      hide Go, Stale;
      path := [s, s1, s2];
    } else {
      var s1 := LookupPuts(s, t, p);
      path := [s, s1];
    }
  }

  // ---------------------------------------------------------------------------------------
  // Exactly the settled puts are safe
  // ---------------------------------------------------------------------------------------

  /** While no flush runs and no lookup of the key is past its own put, a put is safe exactly if it is settled. */
  lemma PutIsSafeIff(s: State, s': State, k: nat, v: int)
    requires Inv(s) && PlainPut(s, s', k, v) && s.flush.NoFlush?
    requires forall t :: t in s.threads && s.threads[t].key == k ==> !s.threads[t].pc.LPut? && !s.threads[t].pc.LHold?
    ensures NeverStale(s') <==> Settled(s, k, v)
  {
    if Settled(s, k, v) {
      PutInv(s, s', k, v);
      InvNeverStale(s');
    } else {
      UnsettledHarms(s, s', k, v);
    }
  }

  lemma UnsettledHarms(s: State, s': State, k: nat, v: int)
    requires SnapshotsOk(s) && PlainPut(s, s', k, v) && s.flush.NoFlush? && !Settled(s, k, v)
    requires forall t :: t in s.threads && s.threads[t].key == k ==> !s.threads[t].pc.LPut? && !s.threads[t].pc.LHold?
    ensures !NeverStale(s')
  {
    var path: seq<State>;
    if t :| t in s.threads && s.threads[t].key == k && Carried(s, s.threads[t]) !in {None, Some(v)} {
      assert s'.threads[t] == s.threads[t] && Carried(s', s'.threads[t]) == Carried(s, s.threads[t]);
      hide Path, EndsStale, Carried;
      path := LookupOvertakes(s', t, Carried(s, s.threads[t]).value);
    } else {
      var i :| 0 <= i < |s.snapshots| && Unmoved(s, s.snapshots[i], k)
                && Movable(s.db.imm[..Flushed(s) + i + 1], k) !in {None, Some(v)};
      hide Path, EndsStale, Movable;
      path := FlushOvertakes(s', i, k, Movable(s.db.imm[..i + 1], k).value);
    }
    assert EndsStale(path, k);
  }

  // ---------------------------------------------------------------------------------------
  // A run from the start
  // ---------------------------------------------------------------------------------------

  ghost function Looked(s: State, locked: nat, active: Table, pc: Pc): (s': State) {
    var seen := if Got(pc).Some? then Got(pc).value else None;
    s.(words := s.words[0 := locked], db := Db(active, [], map[]),
       threads := map[0 := Thread(false, 0, 0, pc, seen, 0)],
       latest := map[0 := 7])
  }

  const PUT: Table := map[0 := Record(7, false, false)]
  const MOVED: Table := map[0 := Record(7, false, true)]

  /** A record is put, and a lookup migrates it: first half, up to its lock. */
  lemma Migrated(r: State) returns (path: seq<State>)
    requires Init(r)
    ensures Path(path) && path[0] == r && path[|path| - 1] == Looked(r, 1, PUT, LUpgraded(0, Some(7)))
  {
    InitInv(r);
    var s1 := r.(db := Db(PUT, [], map[]), latest := map[0 := 7]);
    assert PlainPut(r, s1, 0, 7);
    FirstPutIsOrderly(r, s1);
    var s2, s3 := Looked(r, 0, PUT, LStart), Looked(r, 0, PUT, LReading(0));
    assert r.words[0 := 0] == r.words;
    assert Spawn(s1, s2, 0, 0, 0, false);
    assert ThreadStep(s2, s3, 0);
    var s4, s5 := Looked(r, 0, PUT, LGot(0, Some(7))), Looked(r, 1, PUT, LUpgraded(0, Some(7)));
    assert ThreadStep(s3, s4, 0);
    assert s5.words == s4.words[0 := 1];
    assert ThreadStep(s4, s5, 0);
    NoPut(s1, s2);
    NoPut(s2, s3);
    NoPut(s3, s4);
    NoPut(s4, s5);
    hide Orderly, ThreadStep;
    path := [r, s1, s2, s3, s4, s5];
  }

  lemma FirstPutIsOrderly(s: State, s': State)
    requires Init(s) && PlainPut(s, s', 0, 7)
    ensures Orderly(s, s')
  {
    InitInv(s);
    forall k, v | PlainPut(s, s', k, v) ensures Settled(s, k, v) {
      FirstPutIsSettled(s, k, v);
    }
  }

  /** Second half, and the memtable is switched out. */
  lemma SwitchedOut(r: State) returns (path: seq<State>)
    requires Init(r)
    ensures Path(path) && path[0] == Looked(r, 1, PUT, LUpgraded(0, Some(7)))
    ensures var s := path[|path| - 1];
            && s.words == r.words[0 := 2] && s.db == Db(map[], [MOVED], map[]) && s.snapshots == [s.words]
            && s.flush == NoFlush && s.latest == map[0 := 7]
  {
    hide Orderly;
    var s0, s1 := Looked(r, 1, PUT, LUpgraded(0, Some(7))), Looked(r, 1, MOVED, LPut(0, Some(7)));
    assert PUT[0 := Record(7, false, true)] == MOVED;
    assert ThreadStep(s0, s1, 0);
    var s2, s3 := Looked(r, 1, MOVED, LHold(0, Some(7))), Looked(r, 2, MOVED, LDone(Some(7)));
    assert ThreadStep(s1, s2, 0);
    assert s3.words == s2.words[0 := 2];
    assert ThreadStep(s2, s3, 0);
    var s4 := s3.(db := Db(map[], [MOVED], map[]), snapshots := [s3.words]);
    assert Switch(s3, s4);
    NoPut(s0, s1);
    NoPut(s1, s2);
    NoPut(s2, s3);
    NoPut(s3, s4);
    hide ThreadStep;
    path := [s0, s1, s2, s3, s4];
  }

  /** A run in which a put is overtaken by the flush of an older record. */
  lemma PutOvertaken() returns (run: seq<State>)
    ensures IsRun(run) && EndsStale(run, 0)
  {
    var r := State(seq(LOCK_WORDS, i => 0), Db(map[], [], map[]), [], NoFlush, map[], map[]);
    var a := Migrated(r);
    var b := SwitchedOut(r);
    var ab := JoinPaths(a, b);
    var s := ab[|ab| - 1];
    var s' := s.(db := Put(s.db, 0, Record(8, false, false)), latest := s.latest[0 := 8]);
    assert PlainPut(s, s', 0, 8);
    assert s'.db.imm[..1] == [MOVED] && Waiting(s', 0, 0, 7);
    hide Waiting;
    var c := FlushOvertakes(s', 0, 0, 7);
    assert Next(s, s');
    hide Next, Stale;
    run := ab + c;
    forall i | 0 <= i < |run| - 1 ensures Next(run[i], run[i + 1]) {
      if i < |ab| - 1 {
        assert Go(ab[i], ab[i + 1]);
      } else if i >= |ab| {
        assert Go(c[i - |ab|], c[i - |ab| + 1]);
      }
    }
  }
}
