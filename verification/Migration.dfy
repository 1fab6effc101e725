/**
 Bidirectional record migration over a log-structured store.

 Lookups re-put records they read from deep levels, memtable flushes re-put hot records
 instead of letting them sink, and updates overwrite. All of them are guarded by a table of
 version words that several keys may share, and a flush decides by the copy of that table
 taken when its newest memtable was switched out.

 The store is an active memtable, a queue of immutable memtables (oldest first) and a bottom
 map. A memtable switch and the copy of the lock table are one step.
 */
module Migration {
  import opened Options

  const LOCK_WORDS: nat := 131071

  datatype Record = Record(payload: int, ref: bool, migrated: bool)

  type Table = map<nat, Record>

  type Words = ws: seq<nat> | |ws| == LOCK_WORDS witness seq(LOCK_WORDS, i => 0)

  datatype Db = Db(active: Table, imm: seq<Table>, bottom: Table)

  function WordOf(k: nat): (w: nat)
    ensures w < LOCK_WORDS
  {
    k % LOCK_WORDS
  }

  /** The newest record of a key in a queue of memtables, the last one being the newest. */
  function Newest(tables: seq<Table>, k: nat): (r: Option<Record>) {
    if |tables| == 0 then None
    else if k in tables[|tables| - 1] then Some(tables[|tables| - 1][k])
    else Newest(tables[..|tables| - 1], k)
  }

  function Read(db: Db, k: nat): (r: Option<Record>) {
    if k in db.active then Some(db.active[k])
    else if Newest(db.imm, k).Some? then Newest(db.imm, k)
    else if k in db.bottom then Some(db.bottom[k])
    else None
  }

  function PayloadOf(r: Option<Record>): (p: Option<int>) {
    if r.Some? then Some(r.value.payload) else None
  }

  // ---------------------------------------------------------------------------------------
  // Threads, flush and state
  // ---------------------------------------------------------------------------------------

  // `ver` is the even version the guard took its lock at.
  datatype Pc =
    | LStart | LReading(ver: nat) | LGot(ver: nat, val: Option<int>) | LFailed(ver: nat)
    | LUpgraded(ver: nat, val: Option<int>) | LPut(ver: nat, val: Option<int>) | LHold(ver: nat, val: Option<int>)
    | LDone(res: Option<int>)
    | UStart | UReading(ver: nat) | UGot(ver: nat) | UWant | UCas(ver: nat) | ULocked(ver: nat) | UPut(ver: nat) | UDone

  // `val` is the payload an update writes; lookups ignore it. `seen` and `writes` are bookkeeping: the
  // payload last written when a lookup read, and how often the thread has written for its caller.
  datatype Thread = Thread(update: bool, key: nat, val: int, pc: Pc, seen: Option<int>, writes: nat)

  datatype FlushPc = FPick | FLocked(k: nat) | FPut(k: nat, ok: bool) | FMarked(k: nat, ok: bool)

  // A flush of the `n` oldest memtables, deciding by `table`.
  datatype Flush =
    | NoFlush
    | Flushing(n: nat, table: Words, kept: Table, dropped: set<nat>, pc: FlushPc)

  // `latest` is the payload last written by an update or a first put: what reads should return.
  datatype State = State(
    words: Words, db: Db, snapshots: seq<Words>, flush: Flush,
    threads: map<nat, Thread>, latest: map<nat, int>)

  function Latest(s: State, k: nat): (p: Option<int>) {
    if k in s.latest then Some(s.latest[k]) else None
  }

  function Put(db: Db, k: nat, r: Record): (db': Db) {
    db.(active := db.active[k := r])
  }

  function BumpWord(s: State, w: nat): (s': State)
    requires w < LOCK_WORDS
  {
    s.(words := s.words[w := s.words[w] + 1])
  }

  // ---------------------------------------------------------------------------------------
  // Steps of the operations
  // ---------------------------------------------------------------------------------------

  ghost predicate ThreadStep(s: State, s': State, t: nat) {
    && t in s.threads
    && var th := s.threads[t];
       var w := WordOf(th.key);
       match th.pc
       case LStart =>
         s' == Goto(s, t, if s.words[w] % 2 == 0 then LReading(s.words[w]) else LStart)
       case LReading(ver) =>
         s' == Goto(Note(s, t, th.(seen := Latest(s, th.key))), t, LGot(ver, PayloadOf(Read(s.db, th.key))))
       case LGot(ver, val) =>
         // either no migration is wanted and the guard validates, or the lock is upgraded
         || s' == Goto(s, t, if s.words[w] == ver then LDone(val) else LStart)
         || (val.Some? &&
             s' == if s.words[w] == ver then Goto(BumpWord(s, w), t, LUpgraded(ver, val)) else Goto(s, t, LFailed(ver)))
       case LFailed(ver) =>
         // the upgrade was refused: the result is false, returned only if the guard validates
         s' == Goto(s, t, if s.words[w] == ver then LDone(None) else LStart)
       case LUpgraded(ver, val) =>
         val.Some? &&
         s' == Goto(s.(db := Put(s.db, th.key, Record(val.value, false, true))), t, LPut(ver, val))
       case LPut(ver, val) =>
         s' == if s.words[w] == ver + 1 then Goto(s, t, LHold(ver, val)) else Goto(BumpWord(s, w), t, LStart)
       case LHold(ver, val) => s' == Goto(BumpWord(s, w), t, LDone(val))
       case LDone(_) => false
       case UStart =>
         s' == Goto(s, t, if s.words[w] % 2 == 0 then UReading(s.words[w]) else UStart)
       case UReading(ver) => s' == Goto(s, t, UGot(ver))
       case UGot(ver) => s' == Goto(s, t, if s.words[w] == ver then UWant else UStart)
       case UWant => s' == Goto(s, t, if s.words[w] % 2 == 0 then UCas(s.words[w]) else UWant)
       case UCas(ver) =>
         s' == if s.words[w] == ver then Goto(BumpWord(s, w), t, ULocked(ver)) else Goto(s, t, UWant)
       case ULocked(ver) =>
         s' == Goto(Note(s.(db := Put(s.db, th.key, Record(th.val, false, false)),
                            latest := s.latest[th.key := th.val]),
                         t, th.(writes := th.writes + 1)),
                    t, UPut(ver))
       case UPut(ver) => s' == Goto(BumpWord(s, w), t, UDone)
       case UDone => false
  }

  function Goto(s: State, t: nat, pc: Pc): (s': State)
    requires t in s.threads
  {
    s.(threads := s.threads[t := s.threads[t].(pc := pc)])
  }

  function Note(s: State, t: nat, th: Thread): (s': State) {
    s.(threads := s.threads[t := th])
  }

  ghost predicate Spawn(s: State, s': State, t: nat, key: nat, val: int, update: bool) {
    t !in s.threads && s' == Note(s, t, Thread(update, key, val, if update then UStart else LStart, None, 0))
  }

  /** A put takes no lock. */
  ghost predicate PlainPut(s: State, s': State, k: nat, v: int) {
    s' == s.(db := Put(s.db, k, Record(v, false, false)), latest := s.latest[k := v])
  }

  // ---------------------------------------------------------------------------------------
  // Steps of the store
  // ---------------------------------------------------------------------------------------

  ghost predicate Switch(s: State, s': State) {
    s' == s.(db := s.db.(active := map[], imm := s.db.imm + [s.db.active]), snapshots := s.snapshots + [s.words])
  }

  /** Reads and flushes set and clear the reference bit of memtable records in place. */
  ghost predicate Retag(s: State, s': State, i: nat, k: nat, ref: bool) {
    if i < |s.db.imm| then
      k in s.db.imm[i] && s' == s.(db := s.db.(imm := s.db.imm[i := s.db.imm[i][k := s.db.imm[i][k].(ref := ref)]]))
    else
      k in s.db.active && s' == s.(db := s.db.(active := s.db.active[k := s.db.active[k].(ref := ref)]))
  }

  ghost predicate FlushStart(s: State, s': State, n: nat) {
    && s.flush.NoFlush? && 1 <= n <= |s.db.imm| && n <= |s.snapshots|
    && s' == s.(flush := Flushing(n, s.snapshots[n - 1], map[], {}, FPick), snapshots := s.snapshots[n..])
  }

  function Group(s: State): (g: seq<Table>) {
    if s.flush.Flushing? && s.flush.n <= |s.db.imm| then s.db.imm[..s.flush.n] else []
  }

  predicate Pending(s: State, k: nat) {
    s.flush.Flushing? && Newest(Group(s), k).Some? && k !in s.flush.kept && k !in s.flush.dropped
  }

  /** The per-record flush callback up to its lock attempt; `want` is the throttling decision. */
  ghost predicate FlushPick(s: State, s': State, k: nat, want: bool) {
    && Pending(s, k) && s.flush.pc == FPick
    && var r := Newest(Group(s), k).value;
       var w := WordOf(k);
       if r.migrated && r.ref && want && s.flush.table[w] % 2 == 0 && s.words[w] == s.flush.table[w]
       then s' == BumpWord(s, w).(flush := s.flush.(pc := FLocked(k)))
       else s' == s.(flush := s.flush.(kept := s.flush.kept[k := r]))
  }

  /** The re-put; the store may refuse it. */
  ghost predicate FlushPut(s: State, s': State, ok: bool) {
    && s.flush.Flushing? && s.flush.pc.FLocked? && Newest(Group(s), s.flush.pc.k).Some?
    && var k := s.flush.pc.k;
       var r := Newest(Group(s), k).value.(ref := false, migrated := true);
       s' == s.(flush := s.flush.(pc := FPut(k, ok)), db := if ok then Put(s.db, k, r) else s.db)
  }

  ghost predicate FlushMark(s: State, s': State) {
    && s.flush.Flushing? && s.flush.pc.FPut?
    && var w := WordOf(s.flush.pc.k);
       s' == s.(flush := s.flush.(table := s.flush.table[w := s.words[w] + 1],
                                  pc := FMarked(s.flush.pc.k, s.flush.pc.ok)))
  }

  ghost predicate FlushUnlock(s: State, s': State) {
    && s.flush.Flushing? && s.flush.pc.FMarked?
    && Newest(Group(s), s.flush.pc.k).Some?
    && var k := s.flush.pc.k;
       var r := Newest(Group(s), k).value.(ref := false, migrated := true);
       s' == BumpWord(s, WordOf(k)).(flush :=
               if s.flush.pc.ok then s.flush.(dropped := s.flush.dropped + {k}, pc := FPick)
               else s.flush.(kept := s.flush.kept[k := r], pc := FPick))
  }

  /** The flushed group leaves the queue; what was kept becomes readable below. */
  ghost predicate FlushEnd(s: State, s': State) {
    && s.flush.Flushing? && s.flush.pc == FPick && s.flush.n <= |s.db.imm|
    && (forall k :: !Pending(s, k))
    && s' == s.(flush := NoFlush, db := s.db.(imm := s.db.imm[s.flush.n..], bottom := s.db.bottom + s.flush.kept))
  }

  ghost predicate Next(s: State, s': State) {
    || (exists t :: ThreadStep(s, s', t))
    || (exists t, key, val, update :: Spawn(s, s', t, key, val, update))
    || (exists k, v :: PlainPut(s, s', k, v))
    || Switch(s, s')
    || (exists i, k, ref :: Retag(s, s', i, k, ref))
    || (exists n :: FlushStart(s, s', n))
    || (exists k, want :: FlushPick(s, s', k, want))
    || (exists ok :: FlushPut(s, s', ok))
    || FlushMark(s, s') || FlushUnlock(s, s') || FlushEnd(s, s')
  }

  ghost predicate Init(s: State) {
    && s.words == seq(LOCK_WORDS, i => 0)
    && s.db == Db(map[], [], map[]) && s.snapshots == [] && s.flush == NoFlush
    && s.threads == map[] && s.latest == map[]
  }

  // ---------------------------------------------------------------------------------------
  // Puts that overtake nobody
  // ---------------------------------------------------------------------------------------

  /** The payload a flush of these memtables may put back for a key: only migrated records go up again. */
  function Movable(tables: seq<Table>, k: nat): (p: Option<int>) {
    var r := Newest(tables, k);
    if r.Some? && r.value.migrated then Some(r.value.payload) else None
  }

  /** The word of `k` has not moved since `table` was copied. */
  predicate Unmoved(s: State, table: Words, k: nat) {
    table[WordOf(k)] % 2 == 0 && s.words[WordOf(k)] == table[WordOf(k)]
  }

  /** The payload that a lookup of `k` may still put back or return. */
  function Carried(s: State, th: Thread): (p: Option<int>) {
    match th.pc
    case LGot(ver, val) => if s.words[WordOf(th.key)] == ver then val else None
    case LUpgraded(_, val) => val
    case LPut(_, val) => val
    case LHold(_, val) => val
    case _ => None
  }

  function Flushed(s: State): (n: nat) {
    if s.flush.Flushing? then s.flush.n else 0
  }

  /** The word the flush holds locked. */
  function FlushWord(s: State): (w: Option<nat>) {
    if s.flush.Flushing? && !s.flush.pc.FPick? then Some(WordOf(s.flush.pc.k)) else None
  }

  /** Nobody is in a position to put back or return another payload than `v` for `k`. */
  ghost predicate Settled(s: State, k: nat, v: int)
    requires |s.snapshots| + Flushed(s) == |s.db.imm|
  {
    && (forall i :: 0 <= i < |s.snapshots| && Unmoved(s, s.snapshots[i], k) ==>
          Movable(s.db.imm[..Flushed(s) + i + 1], k) in {None, Some(v)})
    && (s.flush.Flushing? && (Unmoved(s, s.flush.table, k) || FlushWord(s) == Some(WordOf(k))) ==>
          Movable(Group(s), k) in {None, Some(v)})
    && (forall t :: t in s.threads && s.threads[t].key == k ==> Carried(s, s.threads[t]) in {None, Some(v)})
  }

  /** If the step is a put, it overtakes nobody. */
  ghost predicate Orderly(s: State, s': State) {
    forall k, v :: PlainPut(s, s', k, v) ==> |s.snapshots| + Flushed(s) == |s.db.imm| && Settled(s, k, v)
  }

  // ---------------------------------------------------------------------------------------
  // The invariant
  // ---------------------------------------------------------------------------------------

  ghost predicate ReadsLatest(s: State) {
    forall k: nat {:trigger Read(s.db, k)} :: PayloadOf(Read(s.db, k)) == Latest(s, k)
  }

  /** If a word has not moved since `table` was copied, the group's migrated records on it are current. */
  ghost predicate GroupCurrent(s: State, group: seq<Table>, table: Words) {
    forall k: nat {:trigger Movable(group, k)} ::
      Movable(group, k).Some? && Unmoved(s, table, k) ==> Latest(s, k) == Movable(group, k)
  }

  ghost predicate NotAhead(s: State, table: Words) {
    forall w :: 0 <= w < LOCK_WORDS ==> table[w] <= s.words[w]
  }

  ghost predicate SnapshotsOk(s: State) {
    && |s.snapshots| + Flushed(s) == |s.db.imm|
    && forall i :: 0 <= i < |s.snapshots| ==>
         && NotAhead(s, s.snapshots[i])
         && GroupCurrent(s, s.db.imm[..Flushed(s) + i + 1], s.snapshots[i])
  }

  ghost predicate FlushTableOk(s: State) {
    s.flush.Flushing? ==>
      && GroupCurrent(s, Group(s), s.flush.table)
      && (forall w :: 0 <= w < LOCK_WORDS && FlushWord(s) != Some(w) ==> s.flush.table[w] <= s.words[w])
      && (s.flush.pc.FMarked? ==>
            s.flush.table[WordOf(s.flush.pc.k)] == s.words[WordOf(s.flush.pc.k)] + 1)
      && (s.flush.pc.FLocked? || s.flush.pc.FPut? ==>
            s.flush.table[WordOf(s.flush.pc.k)] <= s.words[WordOf(s.flush.pc.k)])
  }

  ghost predicate FlushHoldsOk(s: State)
    requires Shape(s)
  {
    FlushWord(s).Some? ==>
      && Pending(s, s.flush.pc.k) && s.words[FlushWord(s).value] % 2 == 1
      && Movable(Group(s), s.flush.pc.k).Some?
      && (forall k: nat {:trigger Movable(Group(s), k)} ::
            Movable(Group(s), k).Some? && WordOf(k) == FlushWord(s).value ==> Latest(s, k) == Movable(Group(s), k))
      && (!s.flush.pc.FLocked? && s.flush.pc.ok ==> NewerHolds(s, s.flush.pc.k))
  }

  /** The key has a record in a memtable newer than the flushed group. */
  ghost predicate NewerHolds(s: State, k: nat)
    requires s.flush.Flushing? && s.flush.n <= |s.db.imm|
  {
    k in s.db.active || Newest(s.db.imm[s.flush.n..], k).Some?
  }

  ghost predicate FlushDoneOk(s: State)
    requires Shape(s)
  {
    s.flush.Flushing? ==>
      && (forall k :: k in s.flush.kept ==>
            Newest(Group(s), k).Some? && s.flush.kept[k].payload == Newest(Group(s), k).value.payload)
      && (forall k :: k in s.flush.dropped ==> k !in s.flush.kept && NewerHolds(s, k))
  }

  ghost predicate Shape(s: State) {
    s.flush.Flushing? ==> 1 <= s.flush.n <= |s.db.imm|
  }

  /** The word a thread holds locked. */
  function HeldBy(th: Thread): (w: Option<nat>) {
    if th.pc.LUpgraded? || th.pc.LPut? || th.pc.LHold? || th.pc.ULocked? || th.pc.UPut? then Some(WordOf(th.key))
      else None
  }

  predicate Looking(pc: Pc) {
    pc.LStart? || pc.LReading? || pc.LGot? || pc.LFailed? || pc.LUpgraded? || pc.LPut? || pc.LHold? || pc.LDone?
  }

  /** What a lookup has read, once it has. */
  function Got(pc: Pc): (val: Option<Option<int>>) {
    match pc
    case LGot(_, val) => Some(val)
    case LUpgraded(_, val) => Some(val)
    case LPut(_, val) => Some(val)
    case LHold(_, val) => Some(val)
    case LDone(res) => Some(res)
    case _ => None
  }

  /** A lookup carries what it saw, and an update has written exactly if it is past its put. */
  predicate Honest(th: Thread) {
    && Looking(th.pc) == !th.update && (Got(th.pc).Some? ==> Got(th.pc).value == th.seen)
    && th.writes == if th.pc.UPut? || th.pc.UDone? then 1 else 0
  }

  ghost predicate ThreadOk(s: State, th: Thread) {
    var w := WordOf(th.key);
    Honest(th) &&
    match th.pc
    case LReading(ver) => ver % 2 == 0 && ver <= s.words[w]
    case LGot(ver, val) => ver % 2 == 0 && ver <= s.words[w]
      && (s.words[w] == ver && val.Some? ==> Latest(s, th.key) == val)
    case LFailed(ver) => ver < s.words[w]
    case LUpgraded(ver, val) => ver % 2 == 0 && s.words[w] == ver + 1 && val.Some? && Latest(s, th.key) == val
    case LPut(ver, val) => ver % 2 == 0 && s.words[w] == ver + 1 && val.Some? && Latest(s, th.key) == val
    case LHold(ver, val) => ver % 2 == 0 && s.words[w] == ver + 1 && val.Some? && Latest(s, th.key) == val
    case UReading(ver) => ver % 2 == 0 && ver <= s.words[w]
    case UGot(ver) => ver % 2 == 0 && ver <= s.words[w]
    case UCas(ver) => ver % 2 == 0 && ver <= s.words[w]
    case ULocked(ver) => ver % 2 == 0 && s.words[w] == ver + 1
    case UPut(ver) => ver % 2 == 0 && s.words[w] == ver + 1
    case _ => true
  }

  ghost predicate LocksApart(s: State) {
    && (forall t :: t in s.threads && HeldBy(s.threads[t]).Some? ==> HeldBy(s.threads[t]) != FlushWord(s))
    && (forall t, u :: t in s.threads && u in s.threads && t != u && HeldBy(s.threads[t]).Some? ==>
          HeldBy(s.threads[t]) != HeldBy(s.threads[u]))
  }

  ghost predicate ThreadsOk(s: State) {
    forall t :: t in s.threads ==> ThreadOk(s, s.threads[t])
  }

  ghost predicate Inv(s: State) {
    && Shape(s) && ReadsLatest(s) && SnapshotsOk(s)
    && FlushTableOk(s) && FlushHoldsOk(s) && FlushDoneOk(s)
    && LocksApart(s) && ThreadsOk(s)
  }
}
