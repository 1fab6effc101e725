/**
 In every run of the migration protocol in which no put overtakes anybody, a read returns the payload
 last written: a flush never puts an old record over a newer one, and a record it drops is still
 readable above.
 */
module MigrationProof {
  import opened Options
  import opened Migration

  // ---------------------------------------------------------------------------------------
  // Queues of memtables
  // ---------------------------------------------------------------------------------------

  lemma NewestAppend(tables: seq<Table>, t: Table, k: nat)
    ensures Newest(tables + [t], k) == if k in t then Some(t[k]) else Newest(tables, k)
  {
    assert (tables + [t])[..|tables|] == tables;
  }

  lemma {:induction false} NewestConcat(a: seq<Table>, b: seq<Table>, k: nat)
    ensures Newest(a + b, k) == if Newest(b, k).Some? then Newest(b, k) else Newest(a, k)
    decreases |b|
  {
    if |b| == 0 {
      assert a + b == a;
    } else {
      assert (a + b)[..|a + b| - 1] == a + b[..|b| - 1];
      NewestConcat(a, b[..|b| - 1], k);
    }
  }

  lemma NewestSplit(tables: seq<Table>, n: nat, k: nat)
    requires n <= |tables|
    ensures Newest(tables, k) == if Newest(tables[n..], k).Some? then Newest(tables[n..], k) else Newest(tables[..n], k)
  {
    assert tables == tables[..n] + tables[n..];
    NewestConcat(tables[..n], tables[n..], k);
  }

  function WithRecord(t: Table, k: nat, r: Record): (t': Table) {
    t[k := r]
  }

  lemma {:induction false} NewestRetag(tables: seq<Table>, i: nat, k: nat, r: Record, q: nat)
    requires i < |tables| && k in tables[i] && r.(ref := tables[i][k].ref) == tables[i][k]
    ensures var tables' := tables[i := WithRecord(tables[i], k, r)];
            PayloadOf(Newest(tables', q)) == PayloadOf(Newest(tables, q)) && Movable(tables', q) == Movable(tables, q)
    decreases |tables|
  {
    var last := |tables| - 1;
    var tables' := tables[i := WithRecord(tables[i], k, r)];
    if i < last {
      assert tables'[..last] == tables[..last][i := WithRecord(tables[i], k, r)];
      NewestRetag(tables[..last], i, k, r, q);
    } else {
      assert tables'[..last] == tables[..last];
    }
  }

  lemma PutRead(db: Db, k: nat, r: Record, q: nat)
    ensures Read(Put(db, k, r), q) == if q == k then Some(r) else Read(db, q)
  {
  }

  // ---------------------------------------------------------------------------------------
  // What a step may change for those who hold other words
  // ---------------------------------------------------------------------------------------

  ghost predicate Calm(s: State, s': State, held: set<nat>) {
    && (forall w :: w in held ==> w < LOCK_WORDS && s.words[w] % 2 == 1)
    && (forall w :: 0 <= w < LOCK_WORDS ==>
          && s.words[w] <= s'.words[w]
          && (w !in held ==> s'.words[w] == s.words[w] || (s.words[w] % 2 == 0 && s'.words[w] == s.words[w] + 1)))
    && (forall k: nat {:trigger Latest(s, k)} {:trigger Latest(s', k)} ::
          Latest(s, k).Some? && WordOf(k) !in held ==> Latest(s', k) == Latest(s, k))
  }

  lemma ThreadFrame(s: State, s': State, held: set<nat>, th: Thread)
    requires Calm(s, s', held) && ThreadOk(s, th)
    requires HeldBy(th).Some? ==> HeldBy(th).value !in held
    ensures ThreadOk(s', th)
  {
    var w := WordOf(th.key);
    assert s.words[w] <= s'.words[w];
    assert Latest(s, th.key).Some? && w !in held ==> Latest(s', th.key) == Latest(s, th.key);
  }

  lemma GroupFrame(s: State, s': State, held: set<nat>, group: seq<Table>, table: Words)
    requires Calm(s, s', held) && GroupCurrent(s, group, table)
    requires forall w :: 0 <= w < LOCK_WORDS ==> table[w] <= s.words[w] || s'.words[w] % 2 == 1
    ensures GroupCurrent(s', group, table)
  {
    hide Movable;
    forall k: nat | Movable(group, k).Some? && Unmoved(s', table, k) ensures Latest(s', k) == Movable(group, k) {
      var w := WordOf(k);
      assert table[w] <= s.words[w] <= s'.words[w];
      assert Latest(s, k) == Movable(group, k);
    }
  }

  /** A step that leaves the queue, the flush and the snapshots alone. */
  ghost predicate Aside(s: State, s': State, held: set<nat>) {
    && Calm(s, s', held) && (FlushWord(s).Some? ==> FlushWord(s).value !in held)
    && s'.flush == s.flush && s'.snapshots == s.snapshots
    && s'.db.imm == s.db.imm && s.db.active.Keys <= s'.db.active.Keys
  }

  lemma AsideKeeps(s: State, s': State, held: set<nat>)
    requires Inv(s) && Aside(s, s', held)
    ensures Shape(s') && SnapshotsOk(s') && FlushTableOk(s') && FlushHoldsOk(s') && FlushDoneOk(s')
  {
    forall i | 0 <= i < |s.snapshots|
      ensures NotAhead(s', s.snapshots[i]) && GroupCurrent(s', s.db.imm[..Flushed(s) + i + 1], s.snapshots[i])
    {
      assert NotAhead(s, s.snapshots[i]);
      GroupFrame(s, s', held, s.db.imm[..Flushed(s) + i + 1], s.snapshots[i]);
    }
    if s.flush.Flushing? {
      assert Group(s') == Group(s);
      GroupFrame(s, s', held, Group(s), s.flush.table);
    }
  }

  // ---------------------------------------------------------------------------------------
  // Steps of the operations
  // ---------------------------------------------------------------------------------------

  function AsSet(w: Option<nat>): set<nat> {
    if w.Some? then {w.value} else {}
  }

  lemma ThreadAside(s: State, s': State, t: nat)
    requires Inv(s) && ThreadStep(s, s', t)
    ensures Aside(s, s', AsSet(HeldBy(s.threads[t])))
  {
    assert ThreadOk(s, s.threads[t]);
    WordsDiffer(s, t);
    if Looking(s.threads[t].pc) {
      LookupAside(s, s', t);
    } else {
      UpdateAside(s, s', t);
    }
  }

  lemma WordsDiffer(s: State, t: nat)
    requires Inv(s) && t in s.threads
    ensures FlushWord(s).Some? ==> FlushWord(s).value !in AsSet(HeldBy(s.threads[t]))
  {
  }

  lemma LookupAside(s: State, s': State, t: nat)
    requires t in s.threads && ThreadOk(s, s.threads[t]) && ThreadStep(s, s', t) && Looking(s.threads[t].pc)
    requires FlushWord(s).Some? ==> FlushWord(s).value !in AsSet(HeldBy(s.threads[t]))
    ensures Aside(s, s', AsSet(HeldBy(s.threads[t])))
  {
    hide Read, FlushWord;
  }

  lemma UpdateAside(s: State, s': State, t: nat)
    requires t in s.threads && ThreadOk(s, s.threads[t]) && ThreadStep(s, s', t) && !Looking(s.threads[t].pc)
    requires FlushWord(s).Some? ==> FlushWord(s).value !in AsSet(HeldBy(s.threads[t]))
    ensures Aside(s, s', AsSet(HeldBy(s.threads[t])))
  {
    hide Read, FlushWord;
  }

  lemma ThreadReads(s: State, s': State, t: nat)
    requires Inv(s) && ThreadStep(s, s', t)
    ensures ReadsLatest(s')
  {
    var th := s.threads[t];
    assert ThreadOk(s, th);
    if th.pc.LUpgraded? || th.pc.ULocked? {
      forall k: nat ensures PayloadOf(Read(s'.db, k)) == Latest(s', k) {
        assert PayloadOf(Read(s.db, k)) == Latest(s, k);
        PutRead(s.db, th.key, s'.db.active[th.key], k);
      }
    } else {
      assert s'.db == s.db && s'.latest == s.latest;
      forall k: nat ensures PayloadOf(Read(s'.db, k)) == Latest(s', k) {
        assert PayloadOf(Read(s.db, k)) == Latest(s, k);
      }
    }
  }

  lemma ThreadSelf(s: State, s': State, t: nat)
    requires t in s.threads && ThreadOk(s, s.threads[t]) && ThreadStep(s, s', t)
    requires PayloadOf(Read(s.db, s.threads[t].key)) == Latest(s, s.threads[t].key)
    ensures ThreadOk(s', s'.threads[t])
  {
    if Looking(s.threads[t].pc) {
      LookupSelf(s, s', t);
    } else {
      UpdateSelf(s, s', t);
    }
  }

  lemma LookupSelf(s: State, s': State, t: nat)
    requires t in s.threads && ThreadOk(s, s.threads[t]) && ThreadStep(s, s', t) && Looking(s.threads[t].pc)
    requires PayloadOf(Read(s.db, s.threads[t].key)) == Latest(s, s.threads[t].key)
    ensures ThreadOk(s', s'.threads[t])
  {
    hide Read, Put, WordOf;
  }

  lemma UpdateSelf(s: State, s': State, t: nat)
    requires t in s.threads && ThreadOk(s, s.threads[t]) && ThreadStep(s, s', t) && !Looking(s.threads[t].pc)
    ensures ThreadOk(s', s'.threads[t])
  {
    hide ThreadOk, ThreadStep;
    if Locking(s.threads[t].pc) {
      LockedSelf(s, s', t);
    } else {
      WaitingSelf(s, s', t);
    }
  }

  predicate Locking(pc: Pc) { pc.UCas? || pc.ULocked? || pc.UPut? }

  lemma LockedSelf(s: State, s': State, t: nat)
    requires t in s.threads && ThreadOk(s, s.threads[t]) && ThreadStep(s, s', t) && Locking(s.threads[t].pc)
    ensures ThreadOk(s', s'.threads[t])
  {
    hide Read, Put, WordOf;
  }

  lemma WaitingSelf(s: State, s': State, t: nat)
    requires t in s.threads && ThreadOk(s, s.threads[t]) && ThreadStep(s, s', t)
    requires !Looking(s.threads[t].pc) && !Locking(s.threads[t].pc)
    ensures ThreadOk(s', s'.threads[t])
  {
    hide Read, Put, WordOf;
  }

  // ---------------------------------------------------------------------------------------
  // What a thread does for its caller
  // ---------------------------------------------------------------------------------------

  /** The step writes the payload of an update: reading its key gives that payload, and no other key changes. */
  ghost predicate WritesFor(s: State, s': State, t: nat) {
    && t in s.threads && t in s'.threads && s.threads[t].update
    && s'.threads == s.threads[t := s'.threads[t]] && s'.threads[t].writes == s.threads[t].writes + 1
    && s'.latest == s.latest[s.threads[t].key := s.threads[t].val]
    && forall q: nat {:trigger Read(s'.db, q)} ::
         PayloadOf(Read(s'.db, q)) == if q == s.threads[t].key then Some(s.threads[t].val) else PayloadOf(Read(s.db, q))
  }

  /** No payload changes, neither in the store nor in the books, and nobody has written. */
  ghost predicate WritesNothing(s: State, s': State) {
    && s'.latest == s.latest
    && (forall q: nat {:trigger Read(s'.db, q)} :: PayloadOf(Read(s'.db, q)) == PayloadOf(Read(s.db, q)))
    && (forall t :: t in s.threads ==> t in s'.threads && s'.threads[t].writes == s.threads[t].writes)
  }

  lemma ThreadWrites(s: State, s': State, t: nat)
    requires ReadsLatest(s) && ReadsLatest(s') && t in s.threads && Honest(s.threads[t]) && ThreadStep(s, s', t)
    ensures if s.threads[t].pc.ULocked? then WritesFor(s, s', t) && s'.threads[t].pc.UPut? else WritesNothing(s, s')
  {
    SameBooks(s, s', t);
    BooksTell(s, s');
    hide Read, ThreadStep;
  }

  predicate HasRead(pc: Pc) { Got(pc).Some? || pc.LFailed? }

  /** What a step does to the thread that takes it: what it is for stays, what it saw changes only when it reads. */
  predicate Advances(th: Thread, th': Thread, latest: Option<int>) {
    && th'.update == th.update && th'.key == th.key && th'.val == th.val
    && th'.seen == (if th.pc.LReading? then latest else th.seen)
    && th'.writes == (if th.pc.ULocked? then th.writes + 1 else th.writes)
    && (th.pc.ULocked? ==> th'.pc.UPut?)
    && (HasRead(th'.pc) ==> HasRead(th.pc) || th.pc.LReading?)
  }

  /** The bookkeeping of a step. */
  lemma SameBooks(s: State, s': State, t: nat)
    requires ThreadStep(s, s', t)
    ensures t in s'.threads && s'.threads == s.threads[t := s'.threads[t]]
    ensures Advances(s.threads[t], s'.threads[t], Latest(s, s.threads[t].key))
    ensures s'.latest == if s.threads[t].pc.ULocked? then s.latest[s.threads[t].key := s.threads[t].val] else s.latest
  {
    if Looking(s.threads[t].pc) {
      LookupBooks(s, s', t);
    } else {
      UpdateBooks(s, s', t);
    }
    hide ThreadStep, Advances;
  }

  lemma LookupBooks(s: State, s': State, t: nat)
    requires ThreadStep(s, s', t) && Looking(s.threads[t].pc)
    ensures t in s'.threads && s'.threads == s.threads[t := s'.threads[t]] && s'.latest == s.latest
    ensures Advances(s.threads[t], s'.threads[t], Latest(s, s.threads[t].key))
  {
    hide Read, WordOf, PayloadOf, Latest;
  }

  lemma UpdateBooks(s: State, s': State, t: nat)
    requires ThreadStep(s, s', t) && !Looking(s.threads[t].pc)
    ensures t in s'.threads && s'.threads == s.threads[t := s'.threads[t]]
    ensures s'.latest == if s.threads[t].pc.ULocked? then s.latest[s.threads[t].key := s.threads[t].val] else s.latest
    ensures Advances(s.threads[t], s'.threads[t], Latest(s, s.threads[t].key))
  {
    if s.threads[t].pc.ULocked? {
      hide Read, WordOf, PayloadOf, Latest;
    } else {
      var pc := s.threads[t].pc;
      if pc.UWant? || pc.UCas? || pc.UPut? {
        LockBooks(s, s', t);
      } else {
        GuardBooks(s, s', t);
      }
      hide ThreadStep, Advances;
    }
  }

  lemma LockBooks(s: State, s': State, t: nat)
    requires ThreadStep(s, s', t) && (s.threads[t].pc.UWant? || s.threads[t].pc.UCas? || s.threads[t].pc.UPut?)
    ensures t in s'.threads && s'.threads == s.threads[t := s'.threads[t]] && s'.latest == s.latest
    ensures Advances(s.threads[t], s'.threads[t], Latest(s, s.threads[t].key))
  {
    hide Read, WordOf, PayloadOf, Latest;
  }

  lemma GuardBooks(s: State, s': State, t: nat)
    requires ThreadStep(s, s', t) && (s.threads[t].pc.UStart? || s.threads[t].pc.UReading? || s.threads[t].pc.UGot?)
    ensures t in s'.threads && s'.threads == s.threads[t := s'.threads[t]] && s'.latest == s.latest
    ensures Advances(s.threads[t], s'.threads[t], Latest(s, s.threads[t].key))
  {
    hide Read, WordOf, PayloadOf, Latest;
  }

  lemma BooksTell(s: State, s': State)
    requires ReadsLatest(s) && ReadsLatest(s')
    ensures forall q: nat {:trigger Read(s'.db, q)} ::
              PayloadOf(Read(s'.db, q)) == Latest(s', q) && PayloadOf(Read(s.db, q)) == Latest(s, q)
  {
  }

  lemma ThreadHolds(s: State, s': State, t: nat)
    requires t in s.threads && ThreadOk(s, s.threads[t]) && ThreadStep(s, s', t)
    ensures NewHold(s, s', t)
  {
    hide NewHold, ThreadOk, ThreadStep;
    if Looking(s.threads[t].pc) {
      LookupHolds(s, s', t);
    } else {
      UpdateHolds(s, s', t);
    }
  }

  /** A thread takes only words that nobody holds. */
  ghost predicate NewHold(s: State, s': State, t: nat)
    requires t in s.threads && t in s'.threads
  {
    var h := HeldBy(s'.threads[t]);
    h.Some? ==> h == HeldBy(s.threads[t]) || s.words[h.value] % 2 == 0
  }

  lemma LookupHolds(s: State, s': State, t: nat)
    requires t in s.threads && ThreadOk(s, s.threads[t]) && ThreadStep(s, s', t) && Looking(s.threads[t].pc)
    ensures NewHold(s, s', t)
  {
    hide Read, Put, WordOf;
  }

  lemma UpdateHolds(s: State, s': State, t: nat)
    requires t in s.threads && ThreadOk(s, s.threads[t]) && ThreadStep(s, s', t) && !Looking(s.threads[t].pc)
    ensures NewHold(s, s', t)
  {
    hide Read, Put, WordOf;
  }

  lemma HeldIsOdd(s: State, u: nat)
    requires ThreadsOk(s) && u in s.threads && HeldBy(s.threads[u]).Some?
    ensures s.words[HeldBy(s.threads[u]).value] % 2 == 1
  {
    assert ThreadOk(s, s.threads[u]);
  }

  lemma OnlyActor(s: State, s': State, t: nat)
    requires ThreadStep(s, s', t)
    ensures t in s'.threads && s'.threads == s.threads[t := s'.threads[t]] && s'.flush == s.flush
  {
  }

  lemma ThreadOthers(s: State, s': State, t: nat, held: set<nat>)
    requires t in s.threads && t in s'.threads && s'.threads == s.threads[t := s'.threads[t]]
    requires ThreadsOk(s) && LocksApart(s) && held == AsSet(HeldBy(s.threads[t]))
    requires Calm(s, s', held) && ThreadOk(s', s'.threads[t])
    ensures ThreadsOk(s')
  {
    forall u | u in s'.threads ensures ThreadOk(s', s'.threads[u]) {
      if u != t {
        assert ThreadOk(s, s.threads[u]);
        ThreadFrame(s, s', held, s.threads[u]);
      }
    }
  }

  lemma ThreadApart(s: State, s': State, t: nat)
    requires t in s.threads && t in s'.threads && s'.threads == s.threads[t := s'.threads[t]] && s'.flush == s.flush
    requires ThreadsOk(s) && LocksApart(s) && Shape(s) && FlushHoldsOk(s)
    requires var h := HeldBy(s'.threads[t]);
             h.Some? ==> h == HeldBy(s.threads[t]) || s.words[h.value] % 2 == 0
    ensures LocksApart(s')
  {
    forall u | u in s.threads && HeldBy(s.threads[u]).Some?
      ensures s.words[HeldBy(s.threads[u]).value] % 2 == 1
    {
      HeldIsOdd(s, u);
    }
  }

  lemma ThreadStepInv(s: State, s': State, t: nat)
    requires Inv(s) && ThreadStep(s, s', t)
    ensures Inv(s')
  {
    ThreadAside(s, s', t);
    AsideKeeps(s, s', AsSet(HeldBy(s.threads[t])));
    ThreadReads(s, s', t);
    assert ThreadOk(s, s.threads[t]);
    assert PayloadOf(Read(s.db, s.threads[t].key)) == Latest(s, s.threads[t].key);
    ThreadSelf(s, s', t);
    ThreadHolds(s, s', t);
    OnlyActor(s, s', t);
    ThreadOthers(s, s', t, AsSet(HeldBy(s.threads[t])));
    ThreadApart(s, s', t);
  }

  lemma PutGroup(s: State, s': State, k: nat, v: int, group: seq<Table>, table: Words)
    requires PlainPut(s, s', k, v) && GroupCurrent(s, group, table)
    requires Unmoved(s, table, k) ==> Movable(group, k) in {None, Some(v)}
    ensures GroupCurrent(s', group, table)
  {
    hide Movable, WordOf;
    forall q: nat | Movable(group, q).Some? && Unmoved(s', table, q) ensures Latest(s', q) == Movable(group, q) {
      assert Unmoved(s, table, q);
      assert q != k ==> Latest(s', q) == Latest(s, q) == Movable(group, q);
    }
  }

  lemma PutThreads(s: State, s': State, k: nat, v: int)
    requires PlainPut(s, s', k, v) && ThreadsOk(s)
    requires forall t :: t in s.threads && s.threads[t].key == k ==> Carried(s, s.threads[t]) in {None, Some(v)}
    ensures ThreadsOk(s')
  {
    hide WordOf;
    forall u | u in s'.threads ensures ThreadOk(s', s'.threads[u]) {
      assert ThreadOk(s, s.threads[u]);
    }
  }

  lemma PutFlush(s: State, s': State, k: nat, v: int)
    requires PlainPut(s, s', k, v) && Shape(s) && FlushTableOk(s) && FlushHoldsOk(s) && FlushDoneOk(s)
    requires |s.snapshots| + Flushed(s) == |s.db.imm| && Settled(s, k, v)
    ensures FlushTableOk(s') && FlushHoldsOk(s') && FlushDoneOk(s')
  {
    hide Movable;
    assert Group(s') == Group(s);
    if s.flush.Flushing? {
      PutGroup(s, s', k, v, Group(s), s.flush.table);
    }
    forall q: nat ensures q != k ==> Latest(s', q) == Latest(s, q) {
    }
  }

  lemma PutSnapshots(s: State, s': State, k: nat, v: int)
    requires PlainPut(s, s', k, v) && SnapshotsOk(s) && Settled(s, k, v)
    ensures SnapshotsOk(s')
  {
    hide Movable, Unmoved;
    forall i | 0 <= i < |s.snapshots|
      ensures NotAhead(s', s.snapshots[i]) && GroupCurrent(s', s.db.imm[..Flushed(s) + i + 1], s.snapshots[i])
    {
      assert NotAhead(s, s.snapshots[i]);
      PutGroup(s, s', k, v, s.db.imm[..Flushed(s) + i + 1], s.snapshots[i]);
    }
  }

  lemma PutReads(s: State, s': State, k: nat, v: int)
    requires PlainPut(s, s', k, v) && ReadsLatest(s)
    ensures ReadsLatest(s')
  {
    forall q: nat ensures PayloadOf(Read(s'.db, q)) == Latest(s', q) {
      assert PayloadOf(Read(s.db, q)) == Latest(s, q);
      PutRead(s.db, k, Record(v, false, false), q);
    }
  }

  lemma PutInv(s: State, s': State, k: nat, v: int)
    requires Inv(s) && PlainPut(s, s', k, v) && Settled(s, k, v)
    ensures Inv(s')
  {
    PutReads(s, s', k, v);
    PutSnapshots(s, s', k, v);
    PutFlush(s, s', k, v);
    PutThreads(s, s', k, v);
    hide ReadsLatest, SnapshotsOk, FlushTableOk, FlushHoldsOk, FlushDoneOk, ThreadsOk;
  }

  /** The condition is exact: any other put breaks the invariant. */
  lemma PutKeepsInvIff(s: State, s': State, k: nat, v: int)
    requires Inv(s) && PlainPut(s, s', k, v)
    ensures Inv(s') <==> Settled(s, k, v)
  {
    if Settled(s, k, v) {
      PutInv(s, s', k, v);
    }
    if Inv(s') {
      PutWasSettled(s, s', k, v);
    }
  }

  lemma PutWasSettled(s: State, s': State, k: nat, v: int)
    requires SnapshotsOk(s) && PlainPut(s, s', k, v) && Inv(s')
    ensures Settled(s, k, v)
  {
    hide Movable, WordOf;
    assert Latest(s', k) == Some(v) && Group(s') == Group(s);
    forall i | 0 <= i < |s.snapshots| && Unmoved(s, s.snapshots[i], k)
      ensures Movable(s.db.imm[..Flushed(s) + i + 1], k) in {None, Some(v)}
    {
      assert Unmoved(s', s'.snapshots[i], k) && GroupCurrent(s', s'.db.imm[..Flushed(s') + i + 1], s'.snapshots[i]);
    }
    if s.flush.Flushing? && (Unmoved(s, s.flush.table, k) || FlushWord(s) == Some(WordOf(k))) {
      assert Unmoved(s', s'.flush.table, k) || FlushWord(s') == Some(WordOf(k));
      assert Movable(Group(s'), k).Some? ==> Latest(s', k) == Movable(Group(s'), k);
    }
    forall t | t in s.threads && s.threads[t].key == k ensures Carried(s, s.threads[t]) in {None, Some(v)} {
      assert ThreadOk(s', s'.threads[t]);
    }
  }

  /** A key that has no record yet can always be put. */
  lemma FirstPutIsSettled(s: State, k: nat, v: int)
    requires Inv(s) && Read(s.db, k) == None
    ensures Settled(s, k, v)
  {
    assert PayloadOf(Read(s.db, k)) == Latest(s, k);
    hide Read;
    forall i | 0 <= i < |s.snapshots| && Unmoved(s, s.snapshots[i], k)
      ensures Movable(s.db.imm[..Flushed(s) + i + 1], k) == None
    {
      assert GroupCurrent(s, s.db.imm[..Flushed(s) + i + 1], s.snapshots[i]);
    }
    forall t | t in s.threads && s.threads[t].key == k ensures Carried(s, s.threads[t]) == None {
      assert ThreadOk(s, s.threads[t]);
    }
  }

  lemma SpawnInv(s: State, s': State, t: nat, key: nat, val: int, update: bool)
    requires Inv(s) && Spawn(s, s', t, key, val, update)
    ensures Inv(s')
  {
    AsideKeeps(s, s', {});
    SpawnThreads(s, s', t, key, val, update);
    SpawnReads(s, s', t, key, val, update);
    hide Spawn, Shape, ReadsLatest, SnapshotsOk, FlushTableOk, FlushHoldsOk, FlushDoneOk, LocksApart, ThreadsOk;
  }

  lemma SpawnThreads(s: State, s': State, t: nat, key: nat, val: int, update: bool)
    requires LocksApart(s) && ThreadsOk(s) && Spawn(s, s', t, key, val, update)
    ensures LocksApart(s') && ThreadsOk(s')
  {
    forall u | u in s.threads ensures ThreadOk(s', s.threads[u]) {
      ThreadFrame(s, s', {}, s.threads[u]);
    }
  }

  lemma SpawnReads(s: State, s': State, t: nat, key: nat, val: int, update: bool)
    requires ReadsLatest(s) && Spawn(s, s', t, key, val, update)
    ensures ReadsLatest(s')
  {
    forall q: nat ensures PayloadOf(Read(s'.db, q)) == Latest(s', q) {
      assert PayloadOf(Read(s.db, q)) == Latest(s, q);
    }
  }

  // ---------------------------------------------------------------------------------------
  // Steps of the store
  // ---------------------------------------------------------------------------------------

  /** Threads and lock ownership do not depend on where records are stored. */
  lemma OthersKeep(s: State, s': State, held: set<nat>)
    requires Inv(s) && Calm(s, s', held) && s'.threads == s.threads
    requires FlushWord(s') == FlushWord(s) || FlushWord(s') == None || s.words[FlushWord(s').value] % 2 == 0
    requires held <= AsSet(FlushWord(s))
    ensures ThreadsOk(s') && LocksApart(s')
  {
    hide Read, Honest;
    forall u | u in s.threads ensures ThreadOk(s', s.threads[u]) {
      ThreadFrame(s, s', held, s.threads[u]);
    }
    forall u | u in s.threads ensures HeldBy(s.threads[u]).Some? ==> s.words[HeldBy(s.threads[u]).value] % 2 == 1 {
      assert ThreadOk(s, s.threads[u]);
    }
  }

  lemma SwitchReads(s: State, s': State)
    requires Inv(s) && Switch(s, s')
    ensures ReadsLatest(s')
  {
    forall k: nat ensures PayloadOf(Read(s'.db, k)) == Latest(s', k) {
      assert PayloadOf(Read(s.db, k)) == Latest(s, k);
      NewestAppend(s.db.imm, s.db.active, k);
    }
  }

  lemma SwitchSnapshots(s: State, s': State)
    requires Inv(s) && Switch(s, s')
    ensures SnapshotsOk(s')
  {
    var n := Flushed(s);
    forall i | 0 <= i < |s'.snapshots|
      ensures NotAhead(s', s'.snapshots[i]) && GroupCurrent(s', s'.db.imm[..n + i + 1], s'.snapshots[i])
    {
      if i < |s.snapshots| {
        assert NotAhead(s, s.snapshots[i]) && GroupCurrent(s, s.db.imm[..n + i + 1], s.snapshots[i]);
        assert s'.db.imm[..n + i + 1] == s.db.imm[..n + i + 1];
        GroupFrame(s, s', {}, s.db.imm[..n + i + 1], s.snapshots[i]);
      } else {
        assert s'.db.imm[..n + i + 1] == s'.db.imm;
        forall k: nat | Movable(s'.db.imm, k).Some? ensures Latest(s', k) == Movable(s'.db.imm, k) {
          assert PayloadOf(Read(s.db, k)) == Latest(s, k);
          NewestAppend(s.db.imm, s.db.active, k);
        }
      }
    }
  }

  lemma SwitchInv(s: State, s': State)
    requires Inv(s) && Switch(s, s')
    ensures Inv(s')
  {
    SwitchReads(s, s');
    SwitchSnapshots(s, s');
    OthersKeep(s, s', {});
    if s.flush.Flushing? {
      assert Group(s') == Group(s);
      GroupFrame(s, s', {}, Group(s), s.flush.table);
      assert s'.db.imm[s.flush.n..] == s.db.imm[s.flush.n..] + [s.db.active];
      forall k: nat ensures NewerHolds(s, k) ==> NewerHolds(s', k) {
        NewestAppend(s.db.imm[s.flush.n..], s.db.active, k);
      }
    }
  }

  /** Changing reference bits changes no payload anywhere. */
  ghost predicate SamePayloads(a: seq<Table>, b: seq<Table>) {
    |a| == |b| && forall n, k: nat {:trigger Newest(b[..n], k)} ::
      0 <= n <= |a| ==>
        PayloadOf(Newest(b[..n], k)) == PayloadOf(Newest(a[..n], k)) && Movable(b[..n], k) == Movable(a[..n], k)
  }

  lemma RetagPayloads(s: State, s': State, i: nat, k: nat, ref: bool)
    requires Retag(s, s', i, k, ref)
    ensures SamePayloads(s.db.imm, s'.db.imm)
    ensures forall n, q: nat {:trigger Newest(s'.db.imm[n..], q)} ::
              0 <= n <= |s.db.imm| ==> Newest(s'.db.imm[n..], q).Some? == Newest(s.db.imm[n..], q).Some?
  {
    var a, b := s.db.imm, s'.db.imm;
    if i < |a| {
      var r: Record := a[i][k];
      r := r.(ref := ref);
      forall n, q: nat | 0 <= n <= |a|
        ensures PayloadOf(Newest(b[..n], q)) == PayloadOf(Newest(a[..n], q)) && Movable(b[..n], q) == Movable(a[..n], q)
      {
        if i < n {
          assert b[..n] == a[..n][i := WithRecord(a[i], k, r)];
          NewestRetag(a[..n], i, k, r, q);
        } else {
          assert b[..n] == a[..n];
        }
      }
      forall n, q: nat | 0 <= n <= |a| ensures Newest(b[n..], q).Some? == Newest(a[n..], q).Some? {
        if n <= i {
          assert b[n..] == a[n..][i - n := WithRecord(a[i], k, r)];
          NewestRetag(a[n..], i - n, k, r, q);
        } else {
          assert b[n..] == a[n..];
        }
      }
    }
  }

  lemma RetagGroup(s: State, s': State, n: nat, table: Words)
    requires n <= |s.db.imm| && SamePayloads(s.db.imm, s'.db.imm)
    requires s'.words == s.words && s'.latest == s.latest && GroupCurrent(s, s.db.imm[..n], table)
    ensures GroupCurrent(s', s'.db.imm[..n], table)
  {
    forall k: nat | Movable(s'.db.imm[..n], k).Some? && Unmoved(s', table, k)
      ensures Latest(s', k) == Movable(s'.db.imm[..n], k)
    {
      assert PayloadOf(Newest(s'.db.imm[..n], k)) == PayloadOf(Newest(s.db.imm[..n], k));
      assert Movable(s'.db.imm[..n], k) == Movable(s.db.imm[..n], k) == Latest(s, k);
    }
  }

  lemma RetagReads(s: State, s': State, i: nat, k: nat, ref: bool)
    requires ReadsLatest(s) && Retag(s, s', i, k, ref) && SamePayloads(s.db.imm, s'.db.imm)
    ensures ReadsLatest(s')
  {
    var m := |s.db.imm|;
    assert s.db.imm[..m] == s.db.imm && s'.db.imm[..m] == s'.db.imm;
    forall q: nat ensures PayloadOf(Read(s'.db, q)) == Latest(s', q) {
      assert PayloadOf(Read(s.db, q)) == Latest(s, q);
      assert PayloadOf(Newest(s'.db.imm[..m], q)) == PayloadOf(Newest(s.db.imm[..m], q));
    }
  }

  lemma RetagSnapshots(s: State, s': State)
    requires SnapshotsOk(s) && SamePayloads(s.db.imm, s'.db.imm)
    requires s'.words == s.words && s'.latest == s.latest && s'.snapshots == s.snapshots && s'.flush == s.flush
    ensures SnapshotsOk(s')
  {
    forall j | 0 <= j < |s.snapshots|
      ensures NotAhead(s', s'.snapshots[j]) && GroupCurrent(s', s'.db.imm[..Flushed(s) + j + 1], s'.snapshots[j])
    {
      assert NotAhead(s, s.snapshots[j]) && GroupCurrent(s, s.db.imm[..Flushed(s) + j + 1], s.snapshots[j]);
      RetagGroup(s, s', Flushed(s) + j + 1, s.snapshots[j]);
    }
  }

  lemma RetagFlush(s: State, s': State)
    requires Shape(s) && s.flush.Flushing? && SamePayloads(s.db.imm, s'.db.imm)
    requires FlushTableOk(s) && FlushHoldsOk(s) && FlushDoneOk(s)
    requires s'.words == s.words && s'.latest == s.latest && s'.flush == s.flush
    requires forall q: nat {:trigger Newest(s'.db.imm[s.flush.n..], q)} ::
               Newest(s'.db.imm[s.flush.n..], q).Some? == Newest(s.db.imm[s.flush.n..], q).Some?
    requires s'.db.active.Keys == s.db.active.Keys
    ensures FlushTableOk(s') && FlushHoldsOk(s') && FlushDoneOk(s')
  {
    var n := s.flush.n;
    RetagGroup(s, s', n, s.flush.table);
    forall q: nat
      ensures PayloadOf(Newest(Group(s'), q)) == PayloadOf(Newest(Group(s), q))
      ensures Movable(Group(s'), q) == Movable(Group(s), q)
    {
      assert PayloadOf(Newest(s'.db.imm[..n], q)) == PayloadOf(Newest(s.db.imm[..n], q));
    }
    forall q: nat ensures NewerHolds(s', q) == NewerHolds(s, q) && Pending(s', q) == Pending(s, q) {
      assert PayloadOf(Newest(Group(s'), q)) == PayloadOf(Newest(Group(s), q));
    }
  }

  lemma RetagInv(s: State, s': State, i: nat, k: nat, ref: bool)
    requires Inv(s) && Retag(s, s', i, k, ref)
    ensures Inv(s')
  {
    RetagPayloads(s, s', i, k, ref);
    OthersKeep(s, s', {});
    RetagReads(s, s', i, k, ref);
    RetagSnapshots(s, s');
    if s.flush.Flushing? {
      RetagFlush(s, s');
    }
  }

  // ---------------------------------------------------------------------------------------
  // Steps of the flush
  // ---------------------------------------------------------------------------------------

  lemma FlushStartInv(s: State, s': State, n: nat)
    requires Inv(s) && FlushStart(s, s', n)
    ensures Inv(s')
  {
    OthersKeep(s, s', {});
    assert NotAhead(s, s.snapshots[n - 1]) && GroupCurrent(s, s.db.imm[..n - 1 + 1], s.snapshots[n - 1]);
    GroupFrame(s, s', {}, s.db.imm[..n], s.snapshots[n - 1]);
    forall i | 0 <= i < |s'.snapshots|
      ensures NotAhead(s', s'.snapshots[i]) && GroupCurrent(s', s'.db.imm[..n + i + 1], s'.snapshots[i])
    {
      assert NotAhead(s, s.snapshots[n + i]) && GroupCurrent(s, s.db.imm[..n + i + 1], s.snapshots[n + i]);
      GroupFrame(s, s', {}, s.db.imm[..n + i + 1], s.snapshots[n + i]);
    }
    forall k: nat ensures PayloadOf(Read(s'.db, k)) == Latest(s', k) {
      assert PayloadOf(Read(s.db, k)) == Latest(s, k);
    }
  }

  /** Snapshots still in the queue do not depend on the progress of the current flush. */
  lemma QueueKeeps(s: State, s': State, held: set<nat>)
    requires Inv(s) && Calm(s, s', held)
    requires s'.snapshots == s.snapshots && s'.db.imm == s.db.imm
    requires s.flush.Flushing? && s'.flush.Flushing? && s'.flush.n == s.flush.n
    ensures SnapshotsOk(s')
  {
    forall i | 0 <= i < |s.snapshots|
      ensures NotAhead(s', s.snapshots[i]) && GroupCurrent(s', s.db.imm[..Flushed(s) + i + 1], s.snapshots[i])
    {
      assert NotAhead(s, s.snapshots[i]);
      GroupFrame(s, s', held, s.db.imm[..Flushed(s) + i + 1], s.snapshots[i]);
    }
  }

  lemma SameReads(s: State, s': State)
    requires ReadsLatest(s) && s'.db == s.db && s'.latest == s.latest
    ensures ReadsLatest(s')
  {
    forall k: nat ensures PayloadOf(Read(s'.db, k)) == Latest(s', k) {
      assert PayloadOf(Read(s.db, k)) == Latest(s, k);
    }
  }

  lemma FlushPickInv(s: State, s': State, k: nat, want: bool)
    requires Inv(s) && FlushPick(s, s', k, want)
    ensures Inv(s')
  {
    SameReads(s, s');
    QueueKeeps(s, s', {});
    OthersKeep(s, s', {});
    assert Group(s') == Group(s);
    GroupFrame(s, s', {}, Group(s), s.flush.table);
    if s'.flush.pc.FLocked? {
      var w := WordOf(k);
      forall q: nat | Movable(Group(s), q).Some? && WordOf(q) == w ensures Latest(s', q) == Movable(Group(s), q) {
        assert Unmoved(s, s.flush.table, q) && Latest(s, q) == Movable(Group(s), q);
      }
    }
  }

  lemma FlushPutInv(s: State, s': State, ok: bool)
    requires Inv(s) && FlushPut(s, s', ok)
    ensures Inv(s')
  {
    hide ThreadOk, Read, HeldBy;
    var k := s.flush.pc.k;
    QueueKeeps(s, s', {});
    OthersKeep(s, s', {});
    assert Group(s') == Group(s);
    GroupFrame(s, s', {}, Group(s), s.flush.table);
    assert Latest(s, k) == Movable(Group(s), k);
    forall q: nat ensures PayloadOf(Read(s'.db, q)) == Latest(s', q) {
      assert PayloadOf(Read(s.db, q)) == Latest(s, q);
      if ok {
        PutRead(s.db, k, s'.db.active[k], q);
      }
    }
    forall q: nat ensures Latest(s', q) == Latest(s, q) {
    }
  }

  lemma FlushMarkInv(s: State, s': State)
    requires Inv(s) && FlushMark(s, s')
    ensures Inv(s')
  {
    hide Read, ThreadOk, Newest;
    SameReads(s, s');
    QueueKeeps(s, s', {});
    OthersKeep(s, s', {});
    assert Group(s') == Group(s);
    var w := WordOf(s.flush.pc.k);
    forall q: nat | Movable(Group(s), q).Some? && Unmoved(s', s'.flush.table, q)
      ensures Latest(s', q) == Movable(Group(s), q)
    {
      assert WordOf(q) != w;
      assert Unmoved(s, s.flush.table, q) && Latest(s, q) == Movable(Group(s), q);
    }
    forall q: nat ensures Latest(s', q) == Latest(s, q) {
    }
  }

  lemma FlushUnlockInv(s: State, s': State)
    requires Inv(s) && FlushUnlock(s, s')
    ensures Inv(s')
  {
    var k := s.flush.pc.k;
    var w := WordOf(k);
    SameReads(s, s');
    QueueKeeps(s, s', {w});
    OthersKeep(s, s', {w});
    assert Group(s') == Group(s);
    forall q: nat | Movable(Group(s), q).Some? && Unmoved(s', s'.flush.table, q)
      ensures Latest(s', q) == Movable(Group(s), q)
    {
      assert WordOf(q) != w ==> Unmoved(s, s.flush.table, q);
      assert Latest(s, q) == Movable(Group(s), q);
      assert Latest(s', q) == Latest(s, q);
    }
  }

  lemma FlushEndReads(s: State, s': State)
    requires Inv(s) && FlushEnd(s, s')
    ensures ReadsLatest(s')
  {
    var n := s.flush.n;
    forall k: nat ensures PayloadOf(Read(s'.db, k)) == Latest(s', k) {
      assert PayloadOf(Read(s.db, k)) == Latest(s, k);
      NewestSplit(s.db.imm, n, k);
      assert !Pending(s, k);
    }
  }

  lemma FlushEndSnapshots(s: State, s': State)
    requires Inv(s) && FlushEnd(s, s')
    ensures SnapshotsOk(s')
  {
    var n := s.flush.n;
    forall i | 0 <= i < |s'.snapshots|
      ensures NotAhead(s', s'.snapshots[i]) && GroupCurrent(s', s'.db.imm[..i + 1], s'.snapshots[i])
    {
      var old_ := s.db.imm[..n + i + 1];
      assert NotAhead(s, s.snapshots[i]) && GroupCurrent(s, old_, s.snapshots[i]);
      assert old_[n..] == s'.db.imm[..i + 1];
      forall k: nat | Movable(s'.db.imm[..i + 1], k).Some? && Unmoved(s', s.snapshots[i], k)
        ensures Latest(s', k) == Movable(s'.db.imm[..i + 1], k)
      {
        NewestSplit(old_, n, k);
        assert Unmoved(s, s.snapshots[i], k) && Latest(s, k) == Movable(old_, k);
      }
    }
  }

  lemma FlushEndInv(s: State, s': State)
    requires Inv(s) && FlushEnd(s, s')
    ensures Inv(s')
  {
    FlushEndReads(s, s');
    FlushEndSnapshots(s, s');
    OthersKeep(s, s', {});
  }

  // ---------------------------------------------------------------------------------------
  // All runs
  // ---------------------------------------------------------------------------------------

  lemma InitInv(s: State)
    requires Init(s)
    ensures Inv(s)
  {
  }

  lemma NextInv(s: State, s': State)
    requires Inv(s) && Next(s, s') && Orderly(s, s')
    ensures Inv(s')
  {
    if t :| ThreadStep(s, s', t) { ThreadStepInv(s, s', t); }
    else if t, key, val, update :| Spawn(s, s', t, key, val, update) { SpawnInv(s, s', t, key, val, update); }
    else if k, v :| PlainPut(s, s', k, v) { PutInv(s, s', k, v); }
    else if Switch(s, s') { SwitchInv(s, s'); }
    else if i, k, ref :| Retag(s, s', i, k, ref) { RetagInv(s, s', i, k, ref); }
    else if n :| FlushStart(s, s', n) { FlushStartInv(s, s', n); }
    else if k, want :| FlushPick(s, s', k, want) { FlushPickInv(s, s', k, want); }
    else if ok :| FlushPut(s, s', ok) { FlushPutInv(s, s', ok); }
    else if FlushMark(s, s') { FlushMarkInv(s, s'); }
    else if FlushUnlock(s, s') { FlushUnlockInv(s, s'); }
    else { FlushEndInv(s, s'); }
  }

  ghost predicate IsRun(run: seq<State>) {
    && |run| > 0 && Init(run[0])
    && forall i :: 0 <= i < |run| - 1 ==> Next(run[i], run[i + 1])
  }

  /** A run in which no put overtakes anybody. */
  ghost predicate OrderlyRun(run: seq<State>) {
    IsRun(run) && forall i :: 0 <= i < |run| - 1 ==> Orderly(run[i], run[i + 1])
  }

  lemma {:induction false} RunInv(run: seq<State>, i: nat)
    requires OrderlyRun(run) && i < |run|
    ensures Inv(run[i])
  {
    if i == 0 {
      InitInv(run[0]);
    } else {
      RunInv(run, i - 1);
      assert Next(run[i - 1], run[i - 1 + 1]) && Orderly(run[i - 1], run[i - 1 + 1]);
      NextInv(run[i - 1], run[i]);
    }
  }

  /** In every reachable state, whatever tier a key's record is in, reading it yields the last written payload. */
  lemma ReadIsLatest(run: seq<State>, i: nat, k: nat)
    requires OrderlyRun(run) && i < |run|
    ensures PayloadOf(Read(run[i].db, k)) == Latest(run[i], k)
  {
    RunInv(run, i);
  }

  /** A lookup that finishes with a payload returns the last written one, current when its guard validated. */
  lemma LookupIsLatest(run: seq<State>, i: nat, t: nat)
    requires OrderlyRun(run) && i + 1 < |run| && ThreadStep(run[i], run[i + 1], t)
    requires run[i + 1].threads[t].pc.LDone? && run[i + 1].threads[t].pc.res.Some?
    ensures run[i + 1].threads[t].pc.res == Latest(run[i], run[i].threads[t].key)
  {
    RunInv(run, i);
    assert ThreadOk(run[i], run[i].threads[t]);
  }

  /** A lookup whose lock upgrade was refused never gets past its validation: it always retries. */
  lemma RefusedUpgradeStartsOver(run: seq<State>, i: nat, t: nat)
    requires OrderlyRun(run) && i + 1 < |run| && ThreadStep(run[i], run[i + 1], t)
    requires run[i].threads[t].pc.LFailed?
    ensures run[i + 1].threads[t].pc == LStart
  {
    RunInv(run, i);
    assert ThreadOk(run[i], run[i].threads[t]);
  }

  /** A flush only ever re-puts the payload that is already the latest. */
  lemma FlushRePutsLatest(run: seq<State>, i: nat, ok: bool)
    requires OrderlyRun(run) && i + 1 < |run| && FlushPut(run[i], run[i + 1], ok)
    ensures Latest(run[i], run[i].flush.pc.k) == Some(Newest(Group(run[i]), run[i].flush.pc.k).value.payload)
  {
    RunInv(run, i);
    assert FlushHoldsOk(run[i]);
  }

  /** Two guards never hold the same word, even for different keys, and a held word is odd. */
  lemma WordsExclusive(run: seq<State>, i: nat)
    requires OrderlyRun(run) && i < |run|
    ensures LocksApart(run[i])
    ensures forall t :: t in run[i].threads && HeldBy(run[i].threads[t]).Some? ==>
              run[i].words[HeldBy(run[i].threads[t]).value] % 2 == 1
  {
    RunInv(run, i);
    forall t | t in run[i].threads && HeldBy(run[i].threads[t]).Some?
      ensures run[i].words[HeldBy(run[i].threads[t]).value] % 2 == 1
    {
      HeldIsOdd(run[i], t);
    }
  }

  // ---------------------------------------------------------------------------------------
  // What callers get
  // ---------------------------------------------------------------------------------------

  /** The step is a put of `v` for `k`. */
  ghost predicate PutsFor(s: State, s': State, k: nat, v: int) {
    && s'.threads == s.threads && s'.latest == s.latest[k := v]
    && forall q: nat {:trigger Read(s'.db, q)} ::
         PayloadOf(Read(s'.db, q)) == if q == k then Some(v) else PayloadOf(Read(s.db, q))
  }

  /** Payloads change only by the writing step of an update, and by a put; each changes its key only. */
  lemma PayloadsChange(s: State, s': State)
    requires Inv(s) && Next(s, s') && Orderly(s, s')
    ensures (exists t :: WritesFor(s, s', t)) || (exists k, v :: PutsFor(s, s', k, v)) || WritesNothing(s, s')
  {
    hide Orderly;
    NextInv(s, s');
    assert ReadsLatest(s) && ReadsLatest(s');
    if t :| ThreadStep(s, s', t) {
      HonestThread(s, t);
      hide ThreadStep, Inv, WritesFor, WritesNothing;
      ThreadWrites(s, s', t);
    } else if k, v :| PlainPut(s, s', k, v) {
      hide Inv, Next, ReadsLatest;
      PutChanges(s, s', k, v);
    } else {
      hide Inv, ReadsLatest;
      StoreWritesNothing(s, s');
    }
  }

  lemma HonestThread(s: State, t: nat)
    requires Inv(s) && t in s.threads
    ensures Honest(s.threads[t])
  {
    assert ThreadOk(s, s.threads[t]);
  }

  lemma PutChanges(s: State, s': State, k: nat, v: int)
    requires ReadsLatest(s) && ReadsLatest(s') && PlainPut(s, s', k, v)
    ensures PutsFor(s, s', k, v)
  {
    BooksTell(s, s');
    hide Read;
  }

  lemma StoreWritesNothing(s: State, s': State)
    requires Next(s, s') && (forall t :: !ThreadStep(s, s', t)) && forall k, v :: !PlainPut(s, s', k, v)
    requires ReadsLatest(s) && ReadsLatest(s')
    ensures WritesNothing(s, s')
  {
    StoreBooks(s, s');
    BooksTell(s, s');
    hide Read, Next;
  }

  /** The store's own steps, and the start of a thread, leave the books alone. */
  lemma StoreBooks(s: State, s': State)
    requires Next(s, s') && (forall t :: !ThreadStep(s, s', t)) && forall k, v :: !PlainPut(s, s', k, v)
    ensures s'.latest == s.latest && forall t :: t in s.threads ==> t in s'.threads && s'.threads[t] == s.threads[t]
  {
    hide Read, Newest, WordOf, ThreadStep, PlainPut, Pending;
  }

  /** Every step leaves a thread alone, or is the thread's own. */
  lemma StepAdvances(s: State, s': State, t: nat)
    requires Next(s, s') && t in s'.threads && t in s.threads
    ensures s'.threads[t] == s.threads[t] || Advances(s.threads[t], s'.threads[t], Latest(s, s.threads[t].key))
  {
    if u :| ThreadStep(s, s', u) {
      SameBooks(s, s', u);
      hide ThreadStep;
    }
  }

  /** Nothing has been read or written yet. */
  predicate AtStart(th: Thread) {
    (if th.update then th.pc.UStart? else th.pc.LStart?) && th.seen.None? && th.writes == 0
  }

  /** Threads appear at their start. */
  lemma Started(s: State, s': State, t: nat)
    requires Next(s, s') && t in s'.threads
    ensures t in s.threads || AtStart(s'.threads[t])
  {
    hide Read, Newest, Pending;
    if u :| ThreadStep(s, s', u) {
      SameBooks(s, s', u);
      hide ThreadStep;
    }
  }

  lemma NotFirst(run: seq<State>, i: nat, t: nat)
    requires IsRun(run) && i < |run| && t in run[i].threads
    ensures i > 0 && Next(run[i - 1], run[i])
  {
    assert i > 0;
    assert Next(run[i - 1], run[i - 1 + 1]);
  }

  /** What a lookup carries was the payload last written at one of its own read steps. */
  lemma {:induction false} SeenAtRead(run: seq<State>, i: nat, t: nat) returns (j: nat)
    requires IsRun(run) && i < |run| && t in run[i].threads && HasRead(run[i].threads[t].pc)
    ensures j < i && t in run[j].threads && run[j].threads[t].pc.LReading?
    ensures run[j].threads[t].key == run[i].threads[t].key
    ensures run[i].threads[t].seen == Latest(run[j], run[i].threads[t].key)
  {
    hide Next, Init, Latest;
    NotFirst(run, i, t);
    Started(run[i - 1], run[i], t);
    StepAdvances(run[i - 1], run[i], t);
    if run[i - 1].threads[t].pc.LReading? {
      j := i - 1;
    } else {
      j := SeenAtRead(run, i - 1, t);
    }
  }

  /** Every finished lookup, with or without a payload, returns what was last written to its key when it read. */
  lemma LookupReturnsSeen(run: seq<State>, i: nat, t: nat) returns (j: nat)
    requires OrderlyRun(run) && i < |run| && t in run[i].threads && run[i].threads[t].pc.LDone?
    ensures j < i && t in run[j].threads && run[j].threads[t].pc.LReading?
    ensures run[i].threads[t].pc.res == Latest(run[j], run[i].threads[t].key)
    ensures !run[i].threads[t].update
  {
    RunInv(run, i);
    assert ThreadOk(run[i], run[i].threads[t]);
    hide Inv;
    j := SeenAtRead(run, i, t);
  }

  /** An update is past its put exactly if it has written once; a lookup never writes for its caller. */
  lemma WritesOnce(run: seq<State>, i: nat, t: nat)
    requires OrderlyRun(run) && i < |run| && t in run[i].threads
    ensures var th := run[i].threads[t];
            && th.writes <= 1 && (th.writes == 1 <==> th.pc.UPut? || th.pc.UDone?)
            && (th.pc.UDone? || th.pc.UPut? ==> th.update)
  {
    RunInv(run, i);
    assert ThreadOk(run[i], run[i].threads[t]);
  }

  /** The one step in which a finished update has written: reads give its payload, all other keys theirs. */
  lemma {:induction false} UpdateHasWritten(run: seq<State>, i: nat, t: nat) returns (j: nat)
    requires OrderlyRun(run) && i < |run| && t in run[i].threads && run[i].threads[t].writes > 0
    ensures j < i && t in run[j].threads && WritesFor(run[j], run[j + 1], t)
    ensures run[j].threads[t].key == run[i].threads[t].key && run[j].threads[t].val == run[i].threads[t].val
  {
    hide Next, Init, Inv, Orderly, WritesFor;
    NotFirst(run, i, t);
    RunInv(run, i - 1);
    RunInv(run, i);
    WriterWasThere(run[i - 1], run[i], t);
    if run[i - 1].threads[t].writes > 0 {
      j := UpdateHasWritten(run, i - 1, t);
    } else {
      j := i - 1;
    }
  }

  lemma WriterActs(s: State, s': State, t: nat)
    requires Next(s, s') && t in s.threads && t in s'.threads && s.threads[t].writes != s'.threads[t].writes
    ensures ThreadStep(s, s', t)
  {
    hide Read, Newest, Pending;
    if u :| ThreadStep(s, s', u) {
      SameBooks(s, s', u);
      hide ThreadStep;
    }
  }

  lemma WriterWasThere(s: State, s': State, t: nat)
    requires Next(s, s') && Inv(s) && Inv(s') && t in s'.threads && s'.threads[t].writes > 0
    ensures t in s.threads && s.threads[t].key == s'.threads[t].key && s.threads[t].val == s'.threads[t].val
    ensures s.threads[t].writes == 0 ==> WritesFor(s, s', t)
  {
    assert ReadsLatest(s) && ReadsLatest(s');
    Started(s, s', t);
    StepAdvances(s, s', t);
    HonestThread(s, t);
    hide Inv, ReadsLatest, WritesFor, ThreadStep;
    if s.threads[t].writes == 0 {
      WriterActs(s, s', t);
      ThreadWrites(s, s', t);
    }
  }
}
