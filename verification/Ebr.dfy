/**
 Epoch-based reclamation with three epochs. A thread publishes the epoch it entered in, retires
 nodes into the list of that epoch, and frees a list when it next observes that epoch number.
 The global epoch advances when a scan over all control blocks finds nobody in the previous one.

 Every access to memory that threads share is a step of its own. An entry stores the flag, loads
 the global epoch and stores it as the local one. A scan loads the flag of a block and then its
 local epoch, and the final load and compare-and-swap of the global epoch are two more steps.
 */
module Ebr {
  import opened Options

  const EPOCHS: nat := 3

  // A thread being inside its `region`-th critical region.
  datatype Stay = Stay(slot: nat, region: nat)

  // `guards` are the stays under way when the node was retired; `bound` is the age it was
  // retired in, or one less than the age it was orphaned in. Both are bookkeeping.
  datatype Node = Node(ptr: nat, bound: nat, guards: set<Stay>)

  // `Storing` has loaded an epoch other than its own, at age `seen`, which is bookkeeping.
  // `Scanning` has found the flag of the block `look` set.
  datatype Pc =
    | Out
    | Flagged | Storing(epoch: nat, seen: nat)
    | Attempting | Scanning(toScan: set<nat>, scanned: set<nat>, look: Option<nat>)
    | Casing | Adopting | Publishing
    | Freeing(epoch: nat)
    | In(depth: nat)
    | Exiting(target: nat, bound: nat) | Releasing

  // A control block together with the thread data using it. `entered` is the age of the epoch the
  // thread last adopted, `region` counts its outermost entries; both are bookkeeping.
  datatype Slot = Slot(inUse: bool, critical: bool, local: nat, pc: Pc, lists: seq<set<Node>>, entered: nat,
                       region: nat)

  datatype Orphan = Orphan(target: nat, bound: nat, nodes: set<Node>)

  // `age` counts the advances of the global epoch; the program only has `age % EPOCHS`.
  datatype State = State(global: nat, age: nat, slots: map<nat, Slot>, orphans: set<Orphan>)

  const EMPTY: seq<set<Node>> := [{}, {}, {}]

  const NEW_SLOT := Slot(true, false, EPOCHS, Out, EMPTY, 0, 0)

  function Set(s: State, u: nat, slot: Slot): (s': State) {
    s.(slots := s.slots[u := slot])
  }

  /** On the way in. */
  predicate Mid(pc: Pc) {
    || pc.Flagged? || pc.Storing? || pc.Attempting? || pc.Scanning? || pc.Casing? || pc.Adopting? || pc.Publishing?
    || pc.Freeing?
  }

  /** The local epoch is the one this entry has loaded or stored. */
  predicate Entered(pc: Pc) {
    pc.In? || (Mid(pc) && !pc.Flagged? && !pc.Storing?)
  }

  /** The stays under way: threads that have completed their entry. */
  ghost function Stays(s: State): (g: set<Stay>) {
    set u | u in s.slots && s.slots[u].pc.In? :: Stay(u, s.slots[u].region)
  }

  function AllNodes(lists: seq<set<Node>>): (ns: set<Node>)
    requires |lists| == EPOCHS
  {
    lists[0] + lists[1] + lists[2]
  }

  // ---------------------------------------------------------------------------------------
  // Steps
  // ---------------------------------------------------------------------------------------

  ghost predicate Acquire(s: State, s': State, u: nat) {
    if u in s.slots
    then !s.slots[u].inUse && s' == Set(s, u, s.slots[u].(inUse := true))
    else s' == Set(s, u, NEW_SLOT)
  }

  /** Outermost entry: the flag is set ... */
  ghost predicate Flag(s: State, s': State, u: nat) {
    && u in s.slots && s.slots[u].inUse && s.slots[u].pc == Out
    && s' == Set(s, u, s.slots[u].(critical := true, region := s.slots[u].region + 1, pc := Flagged))
  }

  /** ... the global epoch is loaded; `attempt` says whether this entry tries to advance it ... */
  ghost predicate Load(s: State, s': State, u: nat, attempt: bool) {
    && u in s.slots && s.slots[u].pc == Flagged
    && var b := s.slots[u];
       s' == Set(s, u,
         if b.local != s.global then b.(pc := Storing(s.global, s.age))
         else b.(entered := s.age, pc := if attempt then Attempting else In(1)))
  }

  /** How many advances the global epoch is ahead of the number `epoch`. */
  function Lag(s: State, epoch: nat): (n: nat)
    requires epoch <= EPOCHS
  {
    (s.global + EPOCHS - epoch) % EPOCHS
  }

  /** ... and what was loaded becomes the local epoch, whatever the global one is by now. */
  ghost predicate Store(s: State, s': State, u: nat) {
    && u in s.slots && s.slots[u].pc.Storing? && s.slots[u].pc.epoch < EPOCHS
    && var b := s.slots[u];
       var lag := Lag(s, b.pc.epoch);
       && lag <= s.age
       && s' == Set(s, u, b.(local := b.pc.epoch, entered := s.age - lag, pc := Freeing(b.pc.epoch)))
  }

  ghost predicate Begin(s: State, s': State, u: nat) {
    && u in s.slots && s.slots[u].pc == Attempting
    && s' == Set(s, u, s.slots[u].(pc := Scanning(s.slots.Keys, {}, None)))
  }

  ghost predicate ScanFlag(s: State, s': State, u: nat, v: nat) {
    && u in s.slots && s.slots[u].pc.Scanning? && s.slots[u].pc.look.None? && v in s.slots
    && v in s.slots[u].pc.toScan && v !in s.slots[u].pc.scanned
    && var b := s.slots[u];
       s' == Set(s, u, b.(pc := if s.slots[v].critical then b.pc.(look := Some(v))
                                else b.pc.(scanned := b.pc.scanned + {v})))
  }

  ghost predicate ScanEpoch(s: State, s': State, u: nat) {
    && u in s.slots && s.slots[u].pc.Scanning? && s.slots[u].pc.look.Some? && s.slots[u].pc.look.value in s.slots
    && var b, v := s.slots[u], s.slots[u].pc.look.value;
       s' == Set(s, u, b.(pc := if s.slots[v].local == (b.local + EPOCHS - 1) % EPOCHS then In(1)
                                else b.pc.(scanned := b.pc.scanned + {v}, look := None)))
  }

  ghost predicate ScanDone(s: State, s': State, u: nat) {
    && u in s.slots && s.slots[u].pc.Scanning? && s.slots[u].pc.look.None?
    && s.slots[u].pc.toScan <= s.slots[u].pc.scanned
    && s' == Set(s, u, s.slots[u].(pc := if s.global == s.slots[u].local then Casing else Publishing))
  }

  ghost predicate Cas(s: State, s': State, u: nat) {
    && u in s.slots && s.slots[u].pc == Casing
    && var b := s.slots[u];
       if s.global == b.local
       then s' == Set(s, u, b.(pc := Adopting)).(global := (b.local + 1) % EPOCHS, age := s.age + 1)
       else s' == Set(s, u, b.(pc := Publishing))
  }

  /** The thread that advanced the epoch takes over all orphans, into the lists of their target epochs. */
  ghost function Adopted(lists: seq<set<Node>>, orphans: set<Orphan>): (r: seq<set<Node>>)
    requires |lists| == EPOCHS
  {
    seq(EPOCHS, e requires 0 <= e < EPOCHS =>
      lists[e] + (set o, n | o in orphans && o.target == e && n in o.nodes :: n.(bound := o.bound)))
  }

  ghost predicate Adopt(s: State, s': State, u: nat) {
    && u in s.slots && s.slots[u].pc == Adopting && |s.slots[u].lists| == EPOCHS
    && s' == Set(s, u, s.slots[u].(lists := Adopted(s.slots[u].lists, s.orphans), pc := Publishing)).(orphans := {})
  }

  ghost predicate Publish(s: State, s': State, u: nat) {
    && u in s.slots && s.slots[u].pc == Publishing
    && var b := s.slots[u];
       var epoch := (b.local + 1) % EPOCHS;
       s' == Set(s, u, b.(local := epoch, entered := b.entered + 1, pc := Freeing(epoch)))
  }

  ghost predicate Free(s: State, s': State, u: nat, n: Node) {
    && u in s.slots && s.slots[u].pc.Freeing? && |s.slots[u].lists| == EPOCHS
    && var b := s.slots[u];
       b.pc.epoch < EPOCHS && n in b.lists[b.pc.epoch]
       && s' == Set(s, u, b.(lists := b.lists[b.pc.epoch := b.lists[b.pc.epoch] - {n}]))
  }

  ghost predicate FreeDone(s: State, s': State, u: nat) {
    && u in s.slots && s.slots[u].pc.Freeing? && |s.slots[u].lists| == EPOCHS
    && s.slots[u].pc.epoch < EPOCHS && s.slots[u].lists[s.slots[u].pc.epoch] == {}
    && s' == Set(s, u, s.slots[u].(pc := In(1)))
  }

  ghost predicate Nest(s: State, s': State, u: nat) {
    && u in s.slots && s.slots[u].pc.In?
    && s' == Set(s, u, s.slots[u].(pc := In(s.slots[u].pc.depth + 1)))
  }

  ghost predicate Leave(s: State, s': State, u: nat) {
    && u in s.slots && s.slots[u].pc.In? && s.slots[u].pc.depth > 0
    && var d := s.slots[u].pc.depth;
       s' == Set(s, u, if d == 1 then s.slots[u].(critical := false, pc := Out) else s.slots[u].(pc := In(d - 1)))
  }

  ghost predicate Retire(s: State, s': State, u: nat, ptr: nat) {
    && u in s.slots && s.slots[u].pc.In? && |s.slots[u].lists| == EPOCHS && s.slots[u].local < EPOCHS
    && var b := s.slots[u];
       s' == Set(s, u, b.(lists := b.lists[b.local := b.lists[b.local] + {Node(ptr, b.entered, Stays(s))}]))
  }

  /** A thread ends: it aims its unfreed nodes at the epoch before the current one ... */
  ghost predicate Exit(s: State, s': State, u: nat) {
    && u in s.slots && s.slots[u].inUse && s.slots[u].pc == Out && |s.slots[u].lists| == EPOCHS && s.age > 0
    && s' == Set(s, u, s.slots[u].(pc := if AllNodes(s.slots[u].lists) == {} then Releasing
                                         else Exiting((s.global + EPOCHS - 1) % EPOCHS, s.age - 1)))
  }

  /** ... pushes them on the orphan list ... */
  ghost predicate Abandon(s: State, s': State, u: nat) {
    && u in s.slots && s.slots[u].pc.Exiting? && |s.slots[u].lists| == EPOCHS
    && var b := s.slots[u];
       var o := Orphan(b.pc.target, b.pc.bound, AllNodes(b.lists));
       s' == Set(s, u, b.(lists := EMPTY, pc := Releasing)).(orphans := s.orphans + {o})
  }

  /** ... and gives its control block back. */
  ghost predicate Release(s: State, s': State, u: nat) {
    && u in s.slots && s.slots[u].pc == Releasing
    && s' == Set(s, u, s.slots[u].(inUse := false, pc := Out))
  }

  ghost predicate SlotStep(s: State, s': State, u: nat) {
    || Acquire(s, s', u) || Flag(s, s', u) || (exists attempt :: Load(s, s', u, attempt)) || Store(s, s', u)
    || Begin(s, s', u) || (exists v :: ScanFlag(s, s', u, v)) || ScanEpoch(s, s', u)
    || ScanDone(s, s', u) || Cas(s, s', u) || Adopt(s, s', u) || Publish(s, s', u)
    || (exists n :: Free(s, s', u, n)) || FreeDone(s, s', u)
    || Nest(s, s', u) || Leave(s, s', u) || (exists ptr :: Retire(s, s', u, ptr))
    || Exit(s, s', u) || Abandon(s, s', u) || Release(s, s', u)
  }

  ghost predicate Next(s: State, s': State) {
    exists u :: SlotStep(s, s', u)
  }

  // The age starts at a multiple of EPOCHS above zero, so that "one epoch ago" exists.
  ghost predicate Init(s: State) {
    s == State(0, EPOCHS, map[], {})
  }

  // ---------------------------------------------------------------------------------------
  // Stores that come in time
  // ---------------------------------------------------------------------------------------

  /** A scan or compare-and-swap under way that does not look at block `u` any more. */
  predicate Passed(b: Slot, u: nat) {
    b.pc.Casing? || (b.pc.Scanning? && (u in b.pc.scanned || u !in b.pc.toScan))
  }

  /**
   The epoch to be stored is the global one, or the one before it while nobody who has passed the
   block is about to advance the global one.
   */
  ghost predicate Timely(s: State, u: nat)
    requires u in s.slots && s.slots[u].pc.Storing?
  {
    var e := s.slots[u].pc.epoch;
    || e == s.global
    || (&& (e + 1) % EPOCHS == s.global
        && forall w :: w in s.slots && Passed(s.slots[w], u) ==> s.slots[w].local != s.global)
  }

  // ---------------------------------------------------------------------------------------
  // The invariant
  // ---------------------------------------------------------------------------------------

  /** The stay is still under way. */
  predicate Present(s: State, g: Stay) {
    g.slot in s.slots && s.slots[g.slot].pc.In? && s.slots[g.slot].region == g.region
  }

  /** What is known of a node's guards: those still there entered no later than one age after `bound`. */
  ghost predicate GuardsOk(s: State, guards: set<Stay>, bound: nat) {
    forall g :: g in guards ==>
      && g.slot in s.slots
      && g.region <= s.slots[g.slot].region
      && (Mid(s.slots[g.slot].pc) ==> g.region < s.slots[g.slot].region)
      && (Present(s, g) ==> s.slots[g.slot].entered <= bound + 1)
  }

  ghost predicate ListsOk(s: State, b: Slot) {
    && |b.lists| == EPOCHS
    && forall e, n :: 0 <= e < EPOCHS && n in b.lists[e] ==>
         && n.bound % EPOCHS == e && n.bound <= b.entered
         && (b.pc.Freeing? && e == b.pc.epoch ==> n.bound + EPOCHS <= b.entered)
         && GuardsOk(s, n.guards, n.bound)
  }

  ghost predicate BlockOk(s: State, b: Slot) {
    && b.entered <= s.age
    && (b.critical <==> (Mid(b.pc) || b.pc.In?))
    && (b.critical ==> b.inUse)
    && (Entered(b.pc) ==> s.age <= b.entered + 1 && b.local == b.entered % EPOCHS)
    && (b.local == b.entered % EPOCHS || (|b.lists| == EPOCHS && AllNodes(b.lists) == {}))
    && (b.pc.Storing? ==> b.pc.epoch == b.pc.seen % EPOCHS != b.local && b.entered <= b.pc.seen <= s.age)
    && (forall v :: v in s.slots && Entered(s.slots[v].pc) && Passed(b, v) ==> b.entered <= s.slots[v].entered)
    && (b.pc.Adopting? || b.pc.Publishing? ==> s.age == b.entered + 1)
    && (b.pc.Freeing? ==> b.pc.epoch == b.local)
    && (b.pc.In? ==> b.pc.depth > 0)
    && (b.pc.Exiting? ==> b.pc.bound < s.age && b.pc.bound % EPOCHS == b.pc.target && b.entered <= b.pc.bound + 1)
    && (b.pc.Releasing? || !b.inUse ==> |b.lists| == EPOCHS && AllNodes(b.lists) == {})
    && (!b.inUse ==> b.pc == Out)
  }

  ghost predicate OrphanOk(s: State, o: Orphan) {
    && o.bound < s.age && o.bound % EPOCHS == o.target
    && forall n :: n in o.nodes ==> GuardsOk(s, n.guards, o.bound)
  }

  /** An exiting thread's nodes already satisfy the bound they will carry as orphans. */
  ghost predicate ExitingOk(s: State, b: Slot) {
    b.pc.Exiting? && |b.lists| == EPOCHS ==> forall n :: n in AllNodes(b.lists) ==> GuardsOk(s, n.guards, b.pc.bound)
  }

  ghost predicate Inv(s: State) {
    && s.global == s.age % EPOCHS && s.age >= EPOCHS
    && (forall u :: u in s.slots ==> BlockOk(s, s.slots[u]) && ListsOk(s, s.slots[u]) && ExitingOk(s, s.slots[u]))
    && (forall o :: o in s.orphans ==> OrphanOk(s, o))
  }
}
