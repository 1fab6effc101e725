/**
 In exclusive mode an evictor can insert a key into the cold tree while a lookup stands between
 filling the key and removing its cold copy. The insert then meets the stale copy, and the lookup's
 late removal deletes the only copy left. As long as this does not happen a run is safe, and as soon
 as it happens the key can be lost. All runs of inclusive mode are safe.
 */
module TwoTreeGap {
  import opened Options
  import opened TwoTree
  import opened TwoTreeProof

  ghost predicate Steps(path: seq<State>) {
    |path| > 0 && forall i :: 0 <= i < |path| - 1 ==> Next(path[i], path[i + 1])
  }

  /** The key was written and neither tree holds it any more. */
  ghost predicate Lost(s: State, k: nat) {
    k in s.latest && k !in s.hot && k !in s.cold
  }

  function At(hot: map<nat, Entry>, cold: map<nat, int>, threads: map<nat, Thread>): (s: State) {
    State(false, hot, cold, threads, map[0 := 7])
  }

  const CLEAN := Entry(7, false, false, false)
  const TAKEN := Entry(7, false, false, true)
  const FILLED := Entry(7, false, true, false)
  const ITEM := Item(0, TAKEN)

  function Evictor(pc: Pc): (th: Thread) { Thread(EvictOp, 0, pc) }

  function Lookup(pc: Pc): (th: Thread) { Thread(LookupOp, 0, pc) }

  // The first evictor, done, and the state it leaves behind.
  const ONE := map[1 := Evictor(Evict([], Decide))]
  const SUNK := At(map[], map[0 := 7], ONE)

  const S0 := State(false, map[], map[], map[], map[])
  const S1 := At(map[0 := CLEAN], map[], map[])
  const S2 := At(map[0 := CLEAN], map[], map[1 := Evictor(Scan([]))])
  const S3 := At(map[0 := TAKEN], map[], map[1 := Evictor(Scan([ITEM]))])
  const S4 := At(map[0 := TAKEN], map[], map[1 := Evictor(Evict([ITEM], Decide))])
  const S5 := At(map[0 := TAKEN], map[], map[1 := Evictor(Evict([ITEM], InsertCold))])
  const S6 := At(map[0 := TAKEN], map[0 := 7], map[1 := Evictor(Evict([ITEM], RemoveHot))])

  lemma Step0()
    ensures Next(S0, S1)
  {
    assert Insert(S0, S1, 0, 7);
  }

  lemma Step1()
    ensures Next(S1, S2)
  {
    assert Spawn(S1, S2, 1, EvictOp, 0);
  }

  lemma Step2()
    ensures Next(S2, S3)
  {
    assert [] + [ITEM] == [ITEM];
    assert ScanStep(S2, S3, 1, 0);
  }

  lemma Step3()
    ensures Next(S3, S4)
  {
    assert ScanEnd(S3, S4, 1);
  }

  lemma Step4()
    ensures Next(S4, S5)
  {
    assert EvictStep(S4, S5, 1);
  }

  lemma Step5()
    ensures Next(S5, S6)
  {
    assert EvictStep(S5, S6, 1);
  }

  lemma Step6()
    ensures Next(S6, SUNK)
  {
    assert [ITEM][1..] == [];
    assert EvictStep(S6, SUNK, 1);
  }

  /** A key is inserted and evicted. */
  lemma Sink() returns (path: seq<State>)
    ensures Steps(path) && Init(path[0]) && !path[0].inclusive && path[|path| - 1] == SUNK
  {
    hide Next, S1, S2, S3, S4, S5, S6, SUNK;
    Step0();
    Step1();
    Step2();
    Step3();
    Step4();
    Step5();
    Step6();
    path := [S0, S1, S2, S3, S4, S5, S6, SUNK];
  }

  const HOLD := Entry(EMPTY, false, true, true)
  const R1 := At(map[], map[0 := 7], ONE[2 := Lookup(LProbe)])
  const R2 := At(map[], map[0 := 7], ONE[2 := Lookup(Miss)])
  const R3 := At(map[0 := HOLD], map[0 := 7], ONE[2 := Lookup(Token)])
  const R4 := At(map[0 := HOLD], map[0 := 7], ONE[2 := Lookup(ReadCold(Some(7)))])
  const RISEN := At(map[0 := FILLED], map[0 := 7], ONE[2 := Lookup(Filled(7))])

  lemma Rise0()
    ensures Next(SUNK, R1)
  {
    assert Spawn(SUNK, R1, 2, LookupOp, 0);
  }

  lemma Rise1()
    ensures Next(R1, R2)
  {
    assert LookupStep(R1, R2, 2, true);
  }

  lemma Rise2()
    ensures Next(R2, R3)
  {
    assert LookupStep(R2, R3, 2, true);
  }

  lemma Rise3()
    ensures Next(R3, R4)
  {
    assert LookupStep(R3, R4, 2, true);
  }

  lemma Rise4()
    ensures Next(R4, RISEN)
  {
    assert LookupStep(R4, RISEN, 2, true);
  }

  /** A lookup brings it back up, and pauses between its fill and its cold removal. */
  lemma Rise() returns (path: seq<State>)
    ensures Steps(path) && path[0] == SUNK && path[|path| - 1] == RISEN
  {
    hide Next, SUNK, R1, R2, R3, R4, RISEN;
    Rise0();
    Rise1();
    Rise2();
    Rise3();
    Rise4();
    path := [SUNK, R1, R2, R3, R4, RISEN];
  }

  const BUSY := ONE[2 := Lookup(Filled(7))]
  const C1 := At(map[0 := FILLED], map[0 := 7], BUSY[3 := Evictor(Scan([]))])
  const C2 := At(map[0 := CLEAN], map[0 := 7], BUSY[3 := Evictor(Scan([]))])
  const C3 := At(map[0 := TAKEN], map[0 := 7], BUSY[3 := Evictor(Scan([ITEM]))])
  const C4 := At(map[0 := TAKEN], map[0 := 7], BUSY[3 := Evictor(Evict([ITEM], Decide))])
  const CLASH := At(map[0 := TAKEN], map[0 := 7], BUSY[3 := Evictor(Evict([ITEM], InsertCold))])

  lemma Clash0()
    ensures Next(RISEN, C1)
  {
    assert Spawn(RISEN, C1, 3, EvictOp, 0);
  }

  lemma Clash1()
    ensures Next(C1, C2)
  {
    assert ScanStep(C1, C2, 3, 0);
  }

  lemma Clash2()
    ensures Next(C2, C3)
  {
    assert [] + [ITEM] == [ITEM];
    assert ScanStep(C2, C3, 3, 0);
  }

  lemma Clash3()
    ensures Next(C3, C4)
  {
    assert ScanEnd(C3, C4, 3);
  }

  lemma Clash4()
    ensures Next(C4, CLASH)
  {
    assert EvictStep(C4, CLASH, 3);
  }

  /** A second evictor takes it, and is about to insert it where the stale copy still is. */
  lemma Clash() returns (path: seq<State>)
    ensures Steps(path) && path[0] == RISEN && path[|path| - 1] == CLASH
  {
    hide Next, RISEN, C1, C2, C3, C4, CLASH;
    Clash0();
    Clash1();
    Clash2();
    Clash3();
    Clash4();
    path := [RISEN, C1, C2, C3, C4, CLASH];
  }

  const L1 := At(map[0 := TAKEN], map[0 := 7], BUSY[3 := Evictor(Evict([ITEM], RemoveHot))])
  const L2 := At(map[], map[0 := 7], BUSY[3 := Evictor(Evict([], Decide))])
  const GONE := At(map[], map[], ONE[2 := Lookup(Done(Some(7)))][3 := Evictor(Evict([], Decide))])

  lemma Lose0()
    ensures Next(CLASH, L1)
  {
    assert EvictStep(CLASH, L1, 3);
  }

  lemma Lose1()
    ensures Next(L1, L2)
  {
    assert [ITEM][1..] == [];
    assert EvictStep(L1, L2, 3);
  }

  lemma Lose2()
    ensures Next(L2, GONE)
  {
    assert LookupStep(L2, GONE, 2, true);
  }

  /** The stale copy stands in for it until the lookup removes that copy. */
  lemma Lose() returns (path: seq<State>)
    ensures Steps(path) && path[0] == CLASH && path[|path| - 1] == GONE
  {
    hide Next, CLASH, L1, L2, GONE;
    Lose0();
    Lose1();
    Lose2();
    path := [CLASH, L1, L2, GONE];
  }

  lemma Join(a: seq<State>, b: seq<State>) returns (path: seq<State>)
    requires Steps(a) && Steps(b) && a[|a| - 1] == b[0]
    ensures Steps(path) && path[0] == a[0] && path[|path| - 1] == b[|b| - 1]
  {
    path := a + b[1..];
    forall i | 0 <= i < |path| - 1 ensures Next(path[i], path[i + 1]) {
      if i < |a| - 1 {
        assert Next(a[i], a[i + 1]);
      } else {
        assert Next(b[i - (|a| - 1)], b[i - (|a| - 1) + 1]);
      }
    }
  }

  /** An evictor about to insert a key the cold tree already holds. */
  ghost predicate DuplicateAhead(s: State, t: nat) {
    && t in s.threads && s.threads[t].pc.Evict? && |s.threads[t].pc.list| > 0 && s.threads[t].pc.phase == InsertCold
    && s.threads[t].pc.list[0].key in s.cold
  }

  /** A run of exclusive mode meets a duplicate on eviction. */
  lemma GapMeetsDuplicate() returns (run: seq<State>)
    ensures IsRun(run) && !run[0].inclusive && run[|run| - 1] == CLASH && DuplicateAhead(CLASH, 3)
  {
    var a := Sink();
    var b := Rise();
    var c := Clash();
    var ab := Join(a, b);
    run := Join(ab, c);
  }

  /** Carried on, it loses a written key. */
  lemma GapLosesKey() returns (run: seq<State>)
    ensures IsRun(run) && !run[0].inclusive && Lost(run[|run| - 1], 0)
  {
    var a := GapMeetsDuplicate();
    var b := Lose();
    run := Join(a, b);
  }

  /** An evictor's insert is refused by the cold tree. */
  ghost predicate MeetsDuplicate(s: State, s': State, t: nat) {
    Inserts(s, s', t) && DuplicateAhead(s, t)
  }

  /** Calm runs lose no key and have no refused insert. An insert will be refused iff its key is in the gap. */
  lemma CalmNeverLosesKey(run: seq<State>, i: nat, k: nat, t: nat)
    requires IsRun(run) && CalmRun(run) && i < |run|
    ensures !Lost(run[i], k) && (i + 1 < |run| ==> !MeetsDuplicate(run[i], run[i + 1], t))
    ensures t in run[i].threads && run[i].threads[t].pc.Evict? && |run[i].threads[t].pc.list| > 0
            && run[i].threads[t].pc.phase == InsertCold ==>
              (DuplicateAhead(run[i], t) <==> Gap(run[i], run[i].threads[t].pc.list[0].key))
  {
    TreesAgree(run, i, k);
    if t in run[i].threads && run[i].threads[t].pc.Evict? && |run[i].threads[t].pc.list| > 0 {
      EvictionAsserts(run, i, t);
      assert i + 1 < |run| ==> Calm(run[i], run[i + 1]);
    }
  }

  // ---------------------------------------------------------------------------------------
  // Calm steps are the safe ones
  // ---------------------------------------------------------------------------------------

  ghost predicate CalmSteps(path: seq<State>) { Steps(path) && CalmRun(path) }

  /** Whatever calm steps follow, no key is lost. */
  ghost predicate NeverLoses(s: State) {
    forall path, k :: CalmSteps(path) && path[0] == s ==> !EndsLost(path, k)
  }

  ghost predicate EndsLost(path: seq<State>, k: nat) { |path| > 0 && Lost(path[|path| - 1], k) }

  lemma {:induction false} StepsInv(path: seq<State>, i: nat)
    requires CalmSteps(path) && Inv(path[0]) && i < |path|
    ensures Inv(path[i])
  {
    if i > 0 {
      StepsInv(path, i - 1);
      assert Next(path[i - 1], path[i - 1 + 1]) && Calm(path[i - 1], path[i - 1 + 1]);
      hide Inv, Next, Calm;
      NextInv(path[i - 1], path[i]);
    }
  }

  lemma InvNeverLoses(s: State)
    requires Inv(s)
    ensures NeverLoses(s)
  {
    forall path, k | CalmSteps(path) && path[0] == s ensures !EndsLost(path, k) {
      StepsInv(path, |path| - 1);
      assert KeyOk(path[|path| - 1], k);
    }
  }

  /** After an insert in the gap, the hot removal that follows it and the lookup's cold removal lose the key. */
  lemma GapInsertLoses(s: State, s': State, t: nat) returns (path: seq<State>)
    requires Inv(s) && Inserts(s, s', t) && Gap(s, s.threads[t].pc.list[0].key)
    ensures CalmSteps(path) && path[0] == s' && EndsLost(path, s.threads[t].pc.list[0].key)
  {
    var list := s.threads[t].pc.list;
    var k := list[0].key;
    assert ThreadOk(s, s.threads[t]);
    GapMeans(s, k);
    var u :| u in s.threads && Fills(s.threads[u], k);
    assert ThreadOk(s, s.threads[u]);
    hide Inv, ThreadOk, HeadOk;
    assert s' == Goto(s, t, Evict(list, RemoveHot)) && k in s'.latest;
    path := BothRemove(s', t, u, list);
  }

  lemma BothRemove(s: State, t: nat, u: nat, list: seq<Item>) returns (path: seq<State>)
    requires t in s.threads && u in s.threads && |list| > 0 && list[0].key in s.hot && list[0].key in s.latest
    requires s.threads[t].pc == Evict(list, RemoveHot) && s.threads[t].op.EvictOp?
    requires Fills(s.threads[u], list[0].key) && !s.threads[u].op.EvictOp?
    ensures CalmSteps(path) && path[0] == s && EndsLost(path, list[0].key)
  {
    var k := list[0].key;
    var s2 := Goto(DropHot(s, k), t, Evict(list[1..], Decide));
    var s3 := Goto(DropCold(s2, k), u, Finish(s2.threads[u], Some(s2.threads[u].pc.val)));
    assert EvictStep(s, s2, t);
    assert LookupStep(s2, s3, u, true);
    assert Lost(s3, k);
    hide EvictStep, LookupStep, Lost;
    NoInsert(s, s2, t);
    NoInsert(s2, s3, u);
    hide Calm;
    path := [s, s2, s3];
  }

  /** A step of a thread that is not about to insert is calm. */
  lemma NoInsert(s: State, s': State, t: nat)
    requires t in s.threads && t in s'.threads && s'.threads == s.threads[t := s'.threads[t]]
    requires s'.threads[t] != s.threads[t] && !(s.threads[t].pc.Evict? && s.threads[t].pc.phase == InsertCold)
    ensures Calm(s, s')
  {
    forall u ensures !Inserts(s, s', u) {
      if u in s.threads && u != t {
        assert s'.threads[u] == s.threads[u];
      }
    }
  }

  /** Up to its last step a run is calm. It can go on to lose a key exactly if the last step is not. */
  lemma LosesIffGapInsert(run: seq<State>)
    requires IsRun(run) && |run| >= 2 && CalmRun(run[..|run| - 1])
    ensures NeverLoses(run[|run| - 1]) <==> Calm(run[|run| - 2], run[|run| - 1])
  {
    var s, s' := run[|run| - 2], run[|run| - 1];
    LastButOne(run);
    hide Inv;
    if Calm(s, s') {
      assert Next(run[|run| - 2], run[|run| - 2 + 1]);
      NextInv(s, s');
      InvNeverLoses(s');
    } else {
      var t :| Inserts(s, s', t) && Gap(s, s.threads[t].pc.list[0].key);
      var path := GapInsertLoses(s, s', t);
    }
  }

  lemma LastButOne(run: seq<State>)
    requires IsRun(run) && |run| >= 2 && CalmRun(run[..|run| - 1])
    ensures Inv(run[|run| - 2])
  {
    hide Inv;
    var r := run[..|run| - 1];
    forall i | 0 <= i < |r| - 1 ensures Next(r[i], r[i + 1]) {
      assert Next(run[i], run[i + 1]);
    }
    RunInv(r, |r| - 1);
  }

  ghost predicate Safe(s: State) {
    && (forall k :: !Lost(s, k))
    && (forall t :: !DuplicateAhead(s, t))
  }

  ghost predicate SafeRun(run: seq<State>) {
    forall i :: 0 <= i < |run| ==> Safe(run[i])
  }

  /** All runs of a mode are safe exactly if it is the inclusive one. */
  lemma AllSafeIffInclusive(inclusive: bool)
    ensures (forall run: seq<State> :: IsRun(run) && run[0].inclusive == inclusive ==> SafeRun(run)) <==> inclusive
  {
    if inclusive {
      forall run: seq<State> | IsRun(run) && run[0].inclusive ensures SafeRun(run) {
        InclusiveIsCalm(run);
        forall i | 0 <= i < |run| ensures Safe(run[i]) {
          forall k: nat ensures !Lost(run[i], k) {
            CalmNeverLosesKey(run, i, k, 0);
          }
          forall t: nat ensures !DuplicateAhead(run[i], t) {
            CalmNeverLosesKey(run, i, 0, t);
            NoGap(run, i);
          }
        }
      }
    } else {
      var run := GapLosesKey();
      assert !Safe(run[|run| - 1]);
    }
  }
}
