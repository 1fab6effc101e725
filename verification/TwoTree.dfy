/**
 The two-tree store: a hot tree in memory over a cold tree on disk. The `inflight` flag of a hot
 entry is a token: whoever set it (a lookup installing a placeholder, or an evictor) is alone in
 moving the key between the trees, and everybody else retries.

 Every access to one of the trees is one step; lookups, updates and evictors interleave freely.
 In inclusive mode the cold tree keeps its copy of a hot record, in exclusive mode it does not.
 In exclusive mode a lookup fills its placeholder, which gives the token back, and only then removes
 the cold copy; in the gap between the two both trees hold the key and nobody owns it.
 */
module TwoTree {
  import opened Options

  datatype Entry = Entry(payload: int, modified: bool, referenced: bool, inflight: bool)

  datatype Op = LookupOp | UpdateOp(val: int) | EvictOp

  // What an evictor still has to do with the first key on its list.
  datatype Phase = Decide | InsertCold | RemoveHot

  datatype Item = Item(key: nat, entry: Entry)

  datatype Pc =
    | UProbe | LProbe | Miss | Token | ReadCold(res: Option<int>) | Filled(val: int) | Done(res: Option<int>)
    | Scan(list: seq<Item>) | Evict(list: seq<Item>, phase: Phase)

  datatype Thread = Thread(op: Op, key: nat, pc: Pc)

  // `latest` is bookkeeping: the payload last written by an insert or an update.
  datatype State = State(
    inclusive: bool,
    hot: map<nat, Entry>, cold: map<nat, int>,
    threads: map<nat, Thread>, latest: map<nat, int>)

  function Get<V>(m: map<nat, V>, k: nat): (r: Option<V>) {
    if k in m then Some(m[k]) else None
  }

  const EMPTY: int := 0

  function Goto(s: State, t: nat, pc: Pc): (s': State)
    requires t in s.threads
  {
    s.(threads := s.threads[t := s.threads[t].(pc := pc)])
  }

  function SetHot(s: State, k: nat, e: Entry): (s': State) {
    s.(hot := s.hot[k := e])
  }

  function DropHot(s: State, k: nat): (s': State) {
    s.(hot := s.hot - {k})
  }

  function SetCold(s: State, k: nat, v: int): (s': State) {
    s.(cold := s.cold[k := v])
  }

  function DropCold(s: State, k: nat): (s': State) {
    s.(cold := s.cold - {k})
  }

  /** Where a thread goes when its lookup is over: an update retries its own probe. */
  function Finish(th: Thread, res: Option<int>): (pc: Pc) {
    if th.op.UpdateOp? then UProbe else Done(res)
  }

  // ---------------------------------------------------------------------------------------
  // Steps
  // ---------------------------------------------------------------------------------------

  ghost predicate UpdateStep(s: State, s': State, t: nat) {
    && t in s.threads && s.threads[t].pc == UProbe && s.threads[t].op.UpdateOp?
    && var k, v := s.threads[t].key, s.threads[t].op.val;
       if k in s.hot && s.hot[k].inflight then s' == s
       else if k in s.hot then
         s' == Goto(SetHot(s, k,
                           s.hot[k].(payload := v, modified := true, referenced := true)).(latest := s.latest[k := v]),
                    t, Done(None))
       else s' == Goto(s, t, LProbe)
  }

  ghost predicate LookupStep(s: State, s': State, t: nat, migrate: bool) {
    && t in s.threads && !s.threads[t].op.EvictOp?
    && var th := s.threads[t];
       var k := th.key;
       match th.pc
       case LProbe =>
         if k in s.hot && s.hot[k].inflight then s' == s
         else if k in s.hot then
           s' == Goto(SetHot(s, k, s.hot[k].(referenced := true)), t, Finish(th, Some(s.hot[k].payload)))
         else s' == Goto(s, t, Miss)
       case Miss =>
         if k in s.hot then s' == Goto(s, t, LProbe)
         else s' == Goto(SetHot(s, k, Entry(EMPTY, false, true, true)), t, Token)
       case Token => s' == Goto(s, t, ReadCold(Get(s.cold, k)))
       case ReadCold(res) =>
         // the placeholder is still there: its entry is overwritten or removed
         k in s.hot &&
         if res.Some? && migrate then
           var filled := SetHot(s, k, Entry(res.value, false, true, false));
           if s.inclusive then s' == Goto(filled, t, Finish(th, res))
           else s' == Goto(filled, t, Filled(res.value))
         else s' == Goto(DropHot(s, k), t, Finish(th, res))
       case Filled(val) => s' == Goto(DropCold(s, k), t, Finish(th, Some(val)))
       case _ => false
  }

  /** The clock walk visits a hot record: skip it, clear its reference bit, or take its token. */
  ghost predicate ScanStep(s: State, s': State, t: nat, k: nat) {
    && t in s.threads && s.threads[t].op.EvictOp? && s.threads[t].pc.Scan? && k in s.hot
    && var e := s.hot[k];
       var taken := e.(inflight := true);
       if e.inflight then s' == s
       else if e.referenced then s' == SetHot(s, k, e.(referenced := false))
       else s' == Goto(SetHot(s, k, taken), t, Scan(s.threads[t].pc.list + [Item(k, taken)]))
  }

  ghost predicate ScanEnd(s: State, s': State, t: nat) {
    && t in s.threads && s.threads[t].op.EvictOp? && s.threads[t].pc.Scan?
    && s' == Goto(s, t, Evict(s.threads[t].pc.list, Decide))
  }

  ghost predicate EvictStep(s: State, s': State, t: nat) {
    && t in s.threads && s.threads[t].op.EvictOp? && s.threads[t].pc.Evict? && |s.threads[t].pc.list| > 0
    && var list := s.threads[t].pc.list;
       var k, e := list[0].key, list[0].entry;
       match s.threads[t].pc.phase
       case Decide =>
         if s.inclusive then
           if !e.modified then s' == Goto(s, t, Evict(list, RemoveHot))
           else if k in s.cold then s' == Goto(SetCold(s, k, e.payload), t, Evict(list, RemoveHot))
           else s' == Goto(s, t, Evict(list, InsertCold))
         else
           s' == Goto(s, t, Evict(list, InsertCold))
       case InsertCold =>
         // a duplicate is refused by the cold tree and, past the assert, ignored
         s' == Goto(if k in s.cold then s else SetCold(s, k, e.payload), t, Evict(list, RemoveHot))
       case RemoveHot => k in s.hot && s' == Goto(DropHot(s, k), t, Evict(list[1..], Decide))
  }

  /** Inserts are for keys that neither tree holds. */
  ghost predicate Insert(s: State, s': State, k: nat, v: int) {
    && k !in s.hot && k !in s.cold
    && s' == SetHot(s, k, Entry(v, s.inclusive, false, false)).(latest := s.latest[k := v])
  }

  ghost predicate Spawn(s: State, s': State, t: nat, op: Op, k: nat) {
    && t !in s.threads
    && var pc := match op case LookupOp => LProbe case UpdateOp(_) => UProbe case EvictOp => Scan([]);
       s' == s.(threads := s.threads[t := Thread(op, k, pc)])
  }

  ghost predicate Next(s: State, s': State) {
    || (exists t :: UpdateStep(s, s', t))
    || (exists t, migrate :: LookupStep(s, s', t, migrate))
    || (exists t, k :: ScanStep(s, s', t, k))
    || (exists t :: ScanEnd(s, s', t))
    || (exists t :: EvictStep(s, s', t))
    || (exists k, v :: Insert(s, s', k, v))
    || (exists t, op, k :: Spawn(s, s', t, op, k))
  }

  ghost predicate Init(s: State) {
    s.hot == map[] && s.cold == map[] && s.threads == map[] && s.latest == map[]
  }

  // ---------------------------------------------------------------------------------------
  // The invariant
  // ---------------------------------------------------------------------------------------

  ghost predicate Listed(list: seq<Item>, k: nat) {
    exists i :: 0 <= i < |list| && list[i].key == k
  }

  /** The thread holds the token of the key. */
  ghost predicate Holds(th: Thread, k: nat) {
    match th.pc
    case Token => th.key == k
    case ReadCold(_) => th.key == k
    case Scan(list) => Listed(list, k)
    case Evict(list, _) => Listed(list, k)
    case _ => false
  }

  /** The thread stands in the gap between filling the key and removing its cold copy. */
  ghost predicate Fills(th: Thread, k: nat) { th.pc.Filled? && th.key == k }

  ghost predicate Gap(s: State, k: nat) { exists t :: t in s.threads && Fills(s.threads[t], k) }

  /** An evictor inserts the first key on its list into the cold tree. */
  ghost predicate Inserts(s: State, s': State, t: nat) {
    EvictStep(s, s', t) && s.threads[t].pc.phase == InsertCold
  }

  /** No evictor inserts a key in the gap. */
  ghost predicate Calm(s: State, s': State) {
    forall t :: Inserts(s, s', t) ==> !Gap(s, s.threads[t].pc.list[0].key)
  }

  ghost predicate OneFiller(s: State) {
    forall t, u, k :: t in s.threads && u in s.threads && Fills(s.threads[t], k) && Fills(s.threads[u], k) ==> t == u
  }

  ghost predicate TokensReal(s: State) {
    forall t, k :: t in s.threads && Holds(s.threads[t], k) ==> k in s.hot && s.hot[k].inflight
  }

  ghost predicate OneOwner(s: State) {
    forall t, u, k :: t in s.threads && u in s.threads && Holds(s.threads[t], k) && Holds(s.threads[u], k) ==> t == u
  }

  ghost predicate NoOrphans(s: State) {
    forall k :: k in s.hot && s.hot[k].inflight ==> exists t :: t in s.threads && Holds(s.threads[t], k)
  }

  ghost predicate Distinct(list: seq<Item>) {
    forall i, j :: 0 <= i < j < |list| ==> list[i].key != list[j].key
  }

  /** What the two trees hold for a key nobody is moving. */
  ghost predicate KeyOk(s: State, k: nat) {
    if k !in s.hot then Get(s.cold, k) == Get(s.latest, k)
    else if s.hot[k].inflight then true
    else
      && Get(s.latest, k) == Some(s.hot[k].payload)
      && (s.inclusive && !s.hot[k].modified ==> Get(s.cold, k) == Some(s.hot[k].payload))
      && (!s.inclusive ==> k !in s.cold || Gap(s, k))
  }

  /** Both trees hold the key. */
  ghost predicate InBoth(s: State, k: nat) {
    k in s.hot && k in s.cold
  }

  /** What an evictor knows of a key on its list before touching the cold tree for it. */
  ghost predicate ItemOk(s: State, it: Item) {
    && it.key in s.hot && s.hot[it.key].payload == it.entry.payload
    && Get(s.latest, it.key) == Some(it.entry.payload)
    && (s.inclusive && !it.entry.modified ==> Get(s.cold, it.key) == Some(it.entry.payload))
    && (!s.inclusive ==> it.key !in s.cold || Gap(s, it.key))
  }

  ghost predicate HeadOk(s: State, it: Item, phase: Phase) {
    match phase
    case Decide => ItemOk(s, it)
    case InsertCold => ItemOk(s, it) && (it.key !in s.cold || (!s.inclusive && Gap(s, it.key)))
    case RemoveHot =>
      && it.key in s.hot && s.hot[it.key].payload == it.entry.payload && !Gap(s, it.key)
      && Get(s.latest, it.key) == Some(it.entry.payload) && Get(s.cold, it.key) == Some(it.entry.payload)
  }

  ghost predicate ThreadOk(s: State, th: Thread) {
    match th.pc
    case Token => !th.op.EvictOp? && Get(s.cold, th.key) == Get(s.latest, th.key) && !Gap(s, th.key)
    case ReadCold(res) =>
      && !th.op.EvictOp? && Get(s.cold, th.key) == Get(s.latest, th.key) && res == Get(s.cold, th.key)
      && !Gap(s, th.key)
    case Filled(_) => !th.op.EvictOp? && !s.inclusive && InBoth(s, th.key)
    case Scan(list) =>
      th.op.EvictOp? && Distinct(list) && forall i :: 0 <= i < |list| ==> ItemOk(s, list[i])
    case Evict(list, phase) =>
      && th.op.EvictOp? && Distinct(list)
      && (forall i :: 1 <= i < |list| ==> ItemOk(s, list[i]))
      && (|list| > 0 ==> HeadOk(s, list[0], phase))
    case _ => true
  }

  ghost predicate ThreadsOk(s: State) {
    forall t :: t in s.threads ==> ThreadOk(s, s.threads[t])
  }

  ghost predicate KeysOk(s: State) {
    forall k :: KeyOk(s, k)
  }

  ghost predicate Inv(s: State) {
    TokensReal(s) && OneOwner(s) && OneFiller(s) && NoOrphans(s) && ThreadsOk(s) && KeysOk(s)
  }
}
