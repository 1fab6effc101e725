/**
 In every interleaving of lookups, updates, inserts and evictors in which no evictor inserts a key in
 the gap, the two trees together behave as one map holding the payload last written for each key.
 */
module TwoTreeProof {
  import opened Options
  import opened TwoTree

  // ---------------------------------------------------------------------------------------
  // A step concerns one key and one thread
  // ---------------------------------------------------------------------------------------

  /** The trees and the map of last writes differ at most at `k`. */
  ghost predicate OnlyAt(s: State, s': State, k: nat) {
    && s'.inclusive == s.inclusive
    && forall q :: q != k ==>
         && Get(s'.hot, q) == Get(s.hot, q) && Get(s'.cold, q) == Get(s.cold, q)
            && Get(s'.latest, q) == Get(s.latest, q)
  }

  /** Keys other than `k` are in the gap as before. */
  ghost predicate GapsKept(s: State, s': State, k: nat) {
    forall q :: q != k ==> Gap(s', q) == Gap(s, q)
  }

  /** A thread does not care about keys that it neither holds the token of nor fills. */
  lemma ThreadFrame(s: State, s': State, th: Thread, k: nat)
    requires OnlyAt(s, s', k) && GapsKept(s, s', k)
    requires ThreadOk(s, th) && !Holds(th, k) && (Fills(th, k) ==> InBoth(s', k))
    ensures ThreadOk(s', th)
  {
    hide Gap;
    assert th.key != k ==> Get(s'.hot, th.key) == Get(s.hot, th.key) && Get(s'.cold, th.key) == Get(s.cold, th.key);
    if th.pc.Scan? || th.pc.Evict? {
      forall i | 0 <= i < |th.pc.list|
        ensures ItemOk(s', th.pc.list[i]) == ItemOk(s, th.pc.list[i])
        ensures forall phase :: HeadOk(s', th.pc.list[i], phase) == HeadOk(s, th.pc.list[i], phase)
      {
        assert Listed(th.pc.list, th.pc.list[i].key);
        ItemFrame(s, s', th.pc.list[i], k);
      }
    }
  }

  lemma ItemFrame(s: State, s': State, it: Item, k: nat)
    requires OnlyAt(s, s', k) && GapsKept(s, s', k) && it.key != k
    ensures ItemOk(s', it) == ItemOk(s, it) && forall phase :: HeadOk(s', it, phase) == HeadOk(s, it, phase)
  {
    hide Gap;
    assert Get(s'.hot, it.key) == Get(s.hot, it.key) && Get(s'.cold, it.key) == Get(s.cold, it.key);
  }

  lemma KeyFrame(s: State, s': State, q: nat, k: nat)
    requires OnlyAt(s, s', k) && q != k && KeyOk(s, q) && Gap(s', q) == Gap(s, q)
    ensures KeyOk(s', q)
  {
    hide Gap;
    assert Get(s'.hot, q) == Get(s.hot, q);
  }

  predicate Inflight(s: State, k: nat) {
    k in s.hot && s.hot[k].inflight
  }

  /** Thread `t` moved from `th` to `th'` and changed the trees at most at `k`. */
  ghost predicate ActsOn(s: State, s': State, t: nat, k: nat) {
    && t in s.threads && t in s'.threads && s'.threads == s.threads[t := s'.threads[t]]
    && OnlyAt(s, s', k)
    && (Holds(s.threads[t], k) || !Inflight(s, k))
    && (forall q :: q != k ==> Holds(s'.threads[t], q) == Holds(s.threads[t], q))
    && (forall q :: q != k ==> Fills(s'.threads[t], q) == Fills(s.threads[t], q))
    && Holds(s'.threads[t], k) == Inflight(s', k)
    && (GapElse(s, t, k) ==> InBoth(s', k) && !Fills(s'.threads[t], k))
    && ThreadOk(s', s'.threads[t]) && KeyOk(s', k)
  }

  /** Another thread stands in the gap. */
  ghost predicate GapElse(s: State, t: nat, k: nat) {
    exists u :: u in s.threads && u != t && Fills(s.threads[u], k)
  }

  lemma GapKept(s: State, s': State, t: nat, k: nat)
    requires t in s.threads && t in s'.threads && s'.threads == s.threads[t := s'.threads[t]]
    requires Gap(s, k) && (Fills(s.threads[t], k) ==> Fills(s'.threads[t], k))
    ensures Gap(s', k)
  {
    var u :| u in s.threads && Fills(s.threads[u], k);
    assert u in s'.threads && Fills(s'.threads[u], k);
  }

  /** Only thread `t` moved, and it fills what it filled. */
  lemma GapSame(s: State, s': State, t: nat, q: nat)
    requires t in s.threads && t in s'.threads && s'.threads == s.threads[t := s'.threads[t]]
    requires Fills(s'.threads[t], q) == Fills(s.threads[t], q)
    ensures Gap(s', q) == Gap(s, q)
  {
    if Gap(s, q) {
      GapKept(s, s', t, q);
    }
    if u :| u in s'.threads && Fills(s'.threads[u], q) {
      assert u in s.threads && Fills(s.threads[u], q);
    }
  }

  lemma ActInv(s: State, s': State, t: nat, k: nat)
    requires Inv(s) && ActsOn(s, s', t, k)
    ensures Inv(s')
  {
    hide KeyOk, ThreadOk, OnlyAt, ActsOn;
    ActKeys(s, s', t, k);
    ActThreads(s, s', t, k);
    ActTokens(s, s', t, k);
    ActOwners(s, s', t, k);
    ActOrphans(s, s', t, k);
    ActFillers(s, s', t, k);
  }

  lemma ActKeys(s: State, s': State, t: nat, k: nat)
    requires KeysOk(s) && ActsOn(s, s', t, k)
    ensures KeysOk(s')
  {
    hide KeyOk, ThreadOk, OnlyAt;
    forall q ensures KeyOk(s', q) {
      if q != k {
        GapSame(s, s', t, q);
        KeyFrame(s, s', q, k);
      }
    }
  }

  /** Nobody else holds the token of the key acted on. */
  ghost predicate Alone(s: State, t: nat, k: nat) {
    forall u :: u in s.threads && u != t ==> !Holds(s.threads[u], k)
  }

  lemma ActAlone(s: State, s': State, t: nat, k: nat)
    requires TokensReal(s) && OneOwner(s) && ActsOn(s, s', t, k)
    ensures Alone(s, t, k)
  {
    hide KeyOk, ThreadOk, OnlyAt, Holds;
  }

  lemma ActThreads(s: State, s': State, t: nat, k: nat)
    requires TokensReal(s) && OneOwner(s) && ThreadsOk(s) && ActsOn(s, s', t, k)
    ensures ThreadsOk(s')
  {
    hide KeyOk, ThreadOk, OnlyAt, Holds, Fills, InBoth;
    ActAlone(s, s', t, k);
    forall q | q != k ensures Gap(s', q) == Gap(s, q) {
      GapSame(s, s', t, q);
    }
    forall u | u in s.threads && u != t ensures ThreadOk(s', s.threads[u]) {
      assert Fills(s.threads[u], k) ==> GapElse(s, t, k);
      ThreadFrame(s, s', s.threads[u], k);
    }
  }

  lemma ActTokens(s: State, s': State, t: nat, k: nat)
    requires TokensReal(s) && OneOwner(s) && ActsOn(s, s', t, k)
    ensures TokensReal(s')
  {
    hide KeyOk, ThreadOk, Holds;
    ActAlone(s, s', t, k);
    forall u, q | u in s'.threads && Holds(s'.threads[u], q) ensures q in s'.hot && s'.hot[q].inflight {
      if q != k {
        assert Holds(s.threads[u], q);
        assert Get(s'.hot, q) == Get(s.hot, q);
      }
    }
  }

  lemma ActOwners(s: State, s': State, t: nat, k: nat)
    requires TokensReal(s) && OneOwner(s) && ActsOn(s, s', t, k)
    ensures OneOwner(s')
  {
    hide KeyOk, ThreadOk, Holds, OnlyAt;
    ActAlone(s, s', t, k);
  }

  lemma ActOrphans(s: State, s': State, t: nat, k: nat)
    requires NoOrphans(s) && ActsOn(s, s', t, k)
    ensures NoOrphans(s')
  {
    hide KeyOk, ThreadOk, Holds;
    forall q | q in s'.hot && s'.hot[q].inflight ensures exists u :: u in s'.threads && Holds(s'.threads[u], q) {
      if q == k {
        assert Holds(s'.threads[t], k);
      } else {
        assert Get(s'.hot, q) == Get(s.hot, q);
        var u :| u in s.threads && Holds(s.threads[u], q);
        assert Holds(s'.threads[u], q);
      }
    }
  }

  lemma ActFillers(s: State, s': State, t: nat, k: nat)
    requires OneFiller(s) && ActsOn(s, s', t, k)
    ensures OneFiller(s')
  {
    hide KeyOk, ThreadOk, Holds, OnlyAt, InBoth;
    assert forall u :: u in s.threads && u != t && Fills(s.threads[u], k) ==> GapElse(s, t, k);
    forall u, v, q | u in s'.threads && v in s'.threads && Fills(s'.threads[u], q) && Fills(s'.threads[v], q)
      ensures u == v
    {
    }
  }

  /** A thread moved without touching the trees or its tokens. */
  ghost predicate MovesOnly(s: State, s': State, t: nat) {
    && t in s.threads && t in s'.threads
    && s' == s.(threads := s.threads[t := s'.threads[t]])
    && (forall q :: Holds(s'.threads[t], q) == Holds(s.threads[t], q))
    && (forall q :: Fills(s'.threads[t], q) == Fills(s.threads[t], q))
    && ThreadOk(s', s'.threads[t])
  }

  ghost predicate SameGaps(s: State, s': State) { forall q :: Gap(s', q) == Gap(s, q) }

  lemma SameTrees(s: State, s': State, th: Thread)
    requires s' == s.(threads := s'.threads) && SameGaps(s, s')
    ensures ThreadOk(s', th) == ThreadOk(s, th)
    ensures forall k :: KeyOk(s', k) == KeyOk(s, k)
  {
    hide Gap;
    if th.pc.Scan? || th.pc.Evict? {
      forall i | 0 <= i < |th.pc.list|
        ensures ItemOk(s', th.pc.list[i]) == ItemOk(s, th.pc.list[i])
        ensures forall phase :: HeadOk(s', th.pc.list[i], phase) == HeadOk(s, th.pc.list[i], phase)
      {
      }
    }
  }

  lemma MoveInv(s: State, s': State, t: nat)
    requires Inv(s) && MovesOnly(s, s', t)
    ensures Inv(s')
  {
    hide Gap, ThreadOk, KeyOk, Fills, Holds;
    forall q ensures Gap(s', q) == Gap(s, q) {
      GapSame(s, s', t, q);
    }
    forall u | u in s.threads ensures ThreadOk(s', s.threads[u]) {
      SameTrees(s, s', s.threads[u]);
    }
    SameTrees(s, s', s.threads[t]);
    forall k | k in s'.hot && s'.hot[k].inflight ensures exists u :: u in s'.threads && Holds(s'.threads[u], k) {
      var u :| u in s.threads && Holds(s.threads[u], k);
      assert Holds(s'.threads[u], k);
    }
  }

  // ---------------------------------------------------------------------------------------
  // Each step
  // ---------------------------------------------------------------------------------------

  /** A key in the gap is in both trees, in exclusive mode. */
  lemma GapMeans(s: State, k: nat)
    requires ThreadsOk(s) && Gap(s, k)
    ensures InBoth(s, k) && !s.inclusive
  {
    var u :| u in s.threads && Fills(s.threads[u], k);
    assert ThreadOk(s, s.threads[u]);
  }

  /** What a thread acting on a key has to know of the gap. */
  ghost predicate GapKnown(s: State, t: nat, k: nat) {
    (GapElse(s, t, k) ==> Gap(s, k)) && (Gap(s, k) ==> InBoth(s, k) && !s.inclusive)
  }

  lemma GapIsKnown(s: State, t: nat, k: nat)
    requires ThreadsOk(s)
    ensures GapKnown(s, t, k)
  {
    if Gap(s, k) {
      GapMeans(s, k);
    }
  }

  lemma UpdateInv(s: State, s': State, t: nat)
    requires Inv(s) && UpdateStep(s, s', t)
    ensures Inv(s')
  {
    hide Inv, ActsOn;
    var k := s.threads[t].key;
    if s' != s && k in s.hot {
      UpdateActs(s, s', t);
      ActInv(s, s', t, k);
    } else if s' != s {
      MoveInv(s, s', t);
    }
  }

  lemma UpdateActs(s: State, s': State, t: nat)
    requires Inv(s) && UpdateStep(s, s', t) && s' != s && s.threads[t].key in s.hot
    ensures ActsOn(s, s', t, s.threads[t].key)
  {
    hide TokensReal, OneOwner, OneFiller, NoOrphans;
    var k := s.threads[t].key;
    assert KeyOk(s, k);
    GapIsKnown(s, t, k);
    if Gap(s, k) {
      GapKept(s, s', t, k);
    }
  }

  lemma ProbeActs(s: State, s': State, t: nat, migrate: bool)
    requires TokensReal(s) && LookupStep(s, s', t, migrate) && s' != s
    requires s.threads[t].pc == LProbe && KeyOk(s, s.threads[t].key) && GapKnown(s, t, s.threads[t].key)
    ensures ActsOn(s, s', t, s.threads[t].key) || MovesOnly(s, s', t)
  {
    var k := s.threads[t].key;
    if Gap(s, k) {
      GapKept(s, s', t, k);
    }
    assert forall q :: !Holds(s.threads[t], q);
    assert forall q :: !Holds(s'.threads[t], q);
    if k in s.hot {
      assert ActsOn(s, s', t, k);
    } else {
      assert MovesOnly(s, s', t);
    }
  }

  lemma MissActs(s: State, s': State, t: nat, migrate: bool)
    requires LookupStep(s, s', t, migrate)
    requires s.threads[t].pc == Miss && KeyOk(s, s.threads[t].key) && GapKnown(s, t, s.threads[t].key)
    ensures ActsOn(s, s', t, s.threads[t].key) || MovesOnly(s, s', t)
  {
    var k := s.threads[t].key;
    assert forall q :: !Holds(s.threads[t], q);
    GapSame(s, s', t, k);
    if k in s.hot {
      assert MovesOnly(s, s', t);
    } else {
      assert ActsOn(s, s', t, k);
    }
  }

  lemma ReadColdActs(s: State, s': State, t: nat, migrate: bool)
    requires LookupStep(s, s', t, migrate)
    requires s.threads[t].pc.ReadCold? && ThreadOk(s, s.threads[t])
    requires GapKnown(s, t, s.threads[t].key) && Inflight(s, s.threads[t].key)
    ensures ActsOn(s, s', t, s.threads[t].key)
  {
    var k := s.threads[t].key;
    assert forall q :: Holds(s.threads[t], q) == (q == k);
    assert forall q :: !Holds(s'.threads[t], q);
    assert OnlyAt(s, s', k);
    assert Fills(s'.threads[t], k) ==> Gap(s', k);
    assert KeyOk(s', k);
  }

  /** The cold copy goes, and the gap closes. */
  lemma FilledActs(s: State, s': State, t: nat, migrate: bool)
    requires OneFiller(s) && LookupStep(s, s', t, migrate) && !Inflight(s, s.threads[t].key)
    requires s.threads[t].pc.Filled? && ThreadOk(s, s.threads[t]) && KeyOk(s, s.threads[t].key)
    ensures ActsOn(s, s', t, s.threads[t].key)
  {
    var k := s.threads[t].key;
    assert Fills(s.threads[t], k);
    assert forall q :: !Holds(s.threads[t], q);
    assert forall q :: !Holds(s'.threads[t], q);
    assert OnlyAt(s, s', k);
  }

  /** The filler of `k` removes the cold copy while an evictor holds the token. */
  ghost predicate Closes(s: State, s': State, t: nat, k: nat) {
    && t in s.threads && t in s'.threads && s'.threads == s.threads[t := s'.threads[t]]
    && OnlyAt(s, s', k) && s'.hot == s.hot && s'.latest == s.latest && k !in s'.cold && !s.inclusive
    && Inflight(s, k) && Gap(s, k) && Fills(s.threads[t], k) && !Gap(s', k) && GapsKept(s, s', k)
    && (forall q :: !Holds(s.threads[t], q) && !Holds(s'.threads[t], q) && !Fills(s'.threads[t], q))
    && ThreadOk(s', s'.threads[t])
  }

  lemma FilledCloses(s: State, s': State, t: nat, migrate: bool)
    requires OneFiller(s) && LookupStep(s, s', t, migrate) && Inflight(s, s.threads[t].key)
    requires s.threads[t].pc.Filled? && ThreadOk(s, s.threads[t])
    ensures Closes(s, s', t, s.threads[t].key)
  {
    var k := s.threads[t].key;
    assert Fills(s.threads[t], k);
    assert forall u :: u in s'.threads ==> !Fills(s'.threads[u], k);
    forall q | q != k ensures Gap(s', q) == Gap(s, q) {
      GapSame(s, s', t, q);
    }
  }

  lemma CloseThread(s: State, s': State, t: nat, k: nat, u: nat)
    requires Closes(s, s', t, k) && u in s.threads && u != t && ThreadOk(s, s.threads[u])
    requires Fills(s.threads[u], k) ==> u == t
    ensures ThreadOk(s', s.threads[u])
  {
    hide Gap;
    var th := s.threads[u];
    if Holds(th, k) && (th.pc.Scan? || th.pc.Evict?) {
      forall i | 0 <= i < |th.pc.list|
        ensures ItemOk(s, th.pc.list[i]) ==> ItemOk(s', th.pc.list[i])
        ensures forall phase :: HeadOk(s, th.pc.list[i], phase) ==> HeadOk(s', th.pc.list[i], phase)
      {
        if th.pc.list[i].key != k {
          ItemFrame(s, s', th.pc.list[i], k);
        }
      }
    } else if !Holds(th, k) {
      ThreadFrame(s, s', th, k);
    }
  }

  lemma CloseInv(s: State, s': State, t: nat, k: nat)
    requires Inv(s) && Closes(s, s', t, k)
    ensures Inv(s')
  {
    hide Gap, KeyOk, ThreadOk, Fills, Holds;
    forall q ensures KeyOk(s', q) {
      CloseKey(s, s', t, k, q);
    }
    forall u | u in s.threads && u != t ensures ThreadOk(s', s.threads[u]) {
      CloseThread(s, s', t, k, u);
    }
    forall q | q in s'.hot && s'.hot[q].inflight ensures exists u :: u in s'.threads && Holds(s'.threads[u], q) {
      var u :| u in s.threads && Holds(s.threads[u], q);
      assert u in s'.threads && Holds(s'.threads[u], q);
    }
  }

  lemma CloseKey(s: State, s': State, t: nat, k: nat, q: nat)
    requires KeyOk(s, q) && Closes(s, s', t, k)
    ensures KeyOk(s', q)
  {
    hide Gap;
    if q != k {
      KeyFrame(s, s', q, k);
    }
  }

  lemma LookupInv(s: State, s': State, t: nat, migrate: bool)
    requires Inv(s) && LookupStep(s, s', t, migrate)
    ensures Inv(s')
  {
    var k := s.threads[t].key;
    assert KeyOk(s, k) && ThreadOk(s, s.threads[t]);
    GapIsKnown(s, t, k);
    if s' != s {
      match s.threads[t].pc {
        case LProbe => ProbeActs(s, s', t, migrate);
        case Miss => MissActs(s, s', t, migrate);
        case Token =>
          GapSame(s, s', t, k);
          assert MovesOnly(s, s', t);
        case ReadCold(_) =>
          assert Holds(s.threads[t], k);
          ReadColdActs(s, s', t, migrate);
        case Filled(_) =>
          if Inflight(s, k) {
            FilledCloses(s, s', t, migrate);
            CloseInv(s, s', t, k);
            return;
          }
          FilledActs(s, s', t, migrate);
      }
      if MovesOnly(s, s', t) {
        MoveInv(s, s', t);
      } else {
        ActInv(s, s', t, k);
      }
    }
  }

  lemma ListedAppend(list: seq<Item>, it: Item, q: nat)
    ensures Listed(list + [it], q) == (Listed(list, q) || q == it.key)
  {
    var list' := list + [it];
    if Listed(list, q) {
      var i :| 0 <= i < |list| && list[i].key == q;
      assert list'[i].key == q;
    }
    assert list'[|list|].key == it.key;
  }

  lemma TakeActs(s: State, s': State, t: nat, k: nat)
    requires ScanStep(s, s', t, k) && !s.hot[k].inflight && !s.hot[k].referenced && GapKnown(s, t, k)
    requires KeyOk(s, k) && ThreadOk(s, s.threads[t]) && !Holds(s.threads[t], k)
    ensures ActsOn(s, s', t, k)
  {
    var list := s.threads[t].pc.list;
    var it := Item(k, s.hot[k].(inflight := true));
    forall q ensures Gap(s', q) == Gap(s, q) {
      GapSame(s, s', t, q);
    }
    hide Gap;
    forall q ensures Listed(list + [it], q) == (Listed(list, q) || q == k) {
      ListedAppend(list, it, q);
    }
    forall i | 0 <= i < |list| ensures ItemOk(s', list[i]) && list[i].key != k {
      assert Listed(list, list[i].key);
      ItemFrame(s, s', list[i], k);
    }
    assert ItemOk(s', it);
  }

  lemma ClearActs(s: State, s': State, t: nat, k: nat)
    requires ScanStep(s, s', t, k) && !s.hot[k].inflight && s.hot[k].referenced && GapKnown(s, t, k)
    requires KeyOk(s, k) && ThreadOk(s, s.threads[t]) && !Holds(s.threads[t], k)
    ensures ActsOn(s, s', t, k)
  {
    assert s'.threads == s.threads;
    assert forall q :: Gap(s', q) == Gap(s, q);
    ThreadFrame(s, s', s.threads[t], k);
    assert s'.threads == s.threads[t := s'.threads[t]];
  }

  lemma ScanInv(s: State, s': State, t: nat, k: nat)
    requires Inv(s) && ScanStep(s, s', t, k)
    ensures Inv(s')
  {
    if !s.hot[k].inflight {
      GapIsKnown(s, t, k);
      assert KeyOk(s, k) && ThreadOk(s, s.threads[t]);
      assert !Holds(s.threads[t], k);
      if s.hot[k].referenced {
        ClearActs(s, s', t, k);
      } else {
        TakeActs(s, s', t, k);
      }
      ActInv(s, s', t, k);
    }
  }

  lemma ScanEndInv(s: State, s': State, t: nat)
    requires Inv(s) && ScanEnd(s, s', t)
    ensures Inv(s')
  {
    assert ThreadOk(s, s.threads[t]);
    forall q ensures Gap(s', q) == Gap(s, q) {
      GapSame(s, s', t, q);
    }
    SameTrees(s, s', s.threads[t]);
    MoveInv(s, s', t);
  }

  lemma EvictTail(s: State, s': State, list: seq<Item>)
    requires |list| > 0 && Distinct(list) && OnlyAt(s, s', list[0].key) && GapsKept(s, s', list[0].key)
    requires forall i :: 1 <= i < |list| ==> ItemOk(s, list[i])
    ensures forall i :: 1 <= i < |list| ==> ItemOk(s', list[i])
  {
    hide ItemOk;
    forall i | 1 <= i < |list| ensures ItemOk(s', list[i]) {
      ItemFrame(s, s', list[i], list[0].key);
    }
  }

  /** The head of the list after a step that does not remove it. */
  lemma ColdHead(s: State, s': State, t: nat)
    requires EvictStep(s, s', t) && ThreadOk(s, s.threads[t]) && Inflight(s, s.threads[t].pc.list[0].key)
    requires s.threads[t].pc.phase != RemoveHot && GapKnown(s, t, s.threads[t].pc.list[0].key)
    requires s.threads[t].pc.phase == InsertCold ==> !Gap(s, s.threads[t].pc.list[0].key)
    requires SameGaps(s, s')
    ensures var list := s.threads[t].pc.list;
            && s'.threads[t].pc.Evict? && s'.threads[t].pc.list == list && OnlyAt(s, s', list[0].key)
            && HeadOk(s', list[0], s'.threads[t].pc.phase)
            && (Gap(s, list[0].key) ==> InBoth(s', list[0].key))
  {
    hide Gap, Distinct;
  }

  lemma ColdActs(s: State, s': State, t: nat)
    requires EvictStep(s, s', t) && ThreadOk(s, s.threads[t]) && Inflight(s, s.threads[t].pc.list[0].key)
    requires s.threads[t].pc.phase != RemoveHot && GapKnown(s, t, s.threads[t].pc.list[0].key)
    requires s.threads[t].pc.phase == InsertCold ==> !Gap(s, s.threads[t].pc.list[0].key)
    ensures ActsOn(s, s', t, s.threads[t].pc.list[0].key)
  {
    var list := s.threads[t].pc.list;
    var k := list[0].key;
    forall q ensures Gap(s', q) == Gap(s, q) {
      GapSame(s, s', t, q);
    }
    assert Listed(list, k) by { assert list[0].key == k; }
    ColdHead(s, s', t);
    hide Gap, HeadOk;
    EvictTail(s, s', list);
  }

  lemma RemoveActs(s: State, s': State, t: nat)
    requires EvictStep(s, s', t) && ThreadOk(s, s.threads[t]) && Inflight(s, s.threads[t].pc.list[0].key)
    requires s.threads[t].pc.phase == RemoveHot && GapKnown(s, t, s.threads[t].pc.list[0].key)
    ensures ActsOn(s, s', t, s.threads[t].pc.list[0].key)
  {
    var list := s.threads[t].pc.list;
    var k := list[0].key;
    forall q ensures Gap(s', q) == Gap(s, q) {
      GapSame(s, s', t, q);
    }
    hide Gap;
    assert Listed(list, k) by { assert list[0].key == k; }
    EvictTail(s, s', list);
    forall q ensures Listed(list[1..], q) == (Listed(list, q) && q != k) {
    }
    assert forall i :: 0 <= i < |list| - 1 ==> list[1..][i] == list[i + 1];
    assert ThreadOk(s', s'.threads[t]);
  }

  lemma EvictInv(s: State, s': State, t: nat)
    requires Inv(s) && EvictStep(s, s', t) && Calm(s, s')
    ensures Inv(s')
  {
    var list := s.threads[t].pc.list;
    assert Holds(s.threads[t], list[0].key) by { assert Listed(list, list[0].key); }
    assert ThreadOk(s, s.threads[t]);
    GapIsKnown(s, t, list[0].key);
    if s.threads[t].pc.phase == RemoveHot {
      RemoveActs(s, s', t);
    } else {
      assert s.threads[t].pc.phase == InsertCold ==> Inserts(s, s', t);
      ColdActs(s, s', t);
    }
    ActInv(s, s', t, list[0].key);
  }

  lemma InsertInv(s: State, s': State, k: nat, v: int)
    requires Inv(s) && Insert(s, s', k, v)
    ensures Inv(s')
  {
    assert KeyOk(s, k);
    assert forall q :: Gap(s', q) == Gap(s, q);
    forall q ensures KeyOk(s', q) {
      if q != k { KeyFrame(s, s', q, k); }
    }
    forall u | u in s.threads ensures ThreadOk(s', s.threads[u]) {
      assert Fills(s.threads[u], k) ==> Gap(s, k);
      GapIsKnown(s, u, k);
      ThreadFrame(s, s', s.threads[u], k);
    }
  }

  lemma SpawnGap(s: State, s': State, t: nat, q: nat)
    requires t !in s.threads && t in s'.threads && s'.threads == s.threads[t := s'.threads[t]]
    requires !Fills(s'.threads[t], q)
    ensures Gap(s', q) == Gap(s, q)
  {
    if u :| u in s.threads && Fills(s.threads[u], q) {
      assert u in s'.threads && Fills(s'.threads[u], q);
    }
  }

  lemma SpawnInv(s: State, s': State, t: nat, op: Op, k: nat)
    requires Inv(s) && Spawn(s, s', t, op, k)
    ensures Inv(s')
  {
    assert ThreadOk(s', s'.threads[t]);
    assert forall q :: !Holds(s'.threads[t], q) && !Fills(s'.threads[t], q);
    hide KeyOk, ThreadOk, Holds, Fills;
    forall q ensures Gap(s', q) == Gap(s, q) {
      SpawnGap(s, s', t, q);
    }
    hide Gap;
    forall u | u in s.threads ensures ThreadOk(s', s.threads[u]) {
      SameTrees(s, s', s.threads[u]);
    }
    SameTrees(s, s', s'.threads[t]);
    forall q | q in s'.hot && s'.hot[q].inflight ensures exists u :: u in s'.threads && Holds(s'.threads[u], q) {
      var u :| u in s.threads && Holds(s.threads[u], q);
      assert Holds(s'.threads[u], q);
    }
  }

  lemma NextInv(s: State, s': State)
    requires Inv(s) && Next(s, s') && Calm(s, s')
    ensures Inv(s')
  {
    if t :| UpdateStep(s, s', t) { UpdateInv(s, s', t); }
    else if t, migrate :| LookupStep(s, s', t, migrate) { LookupInv(s, s', t, migrate); }
    else if t, k :| ScanStep(s, s', t, k) { ScanInv(s, s', t, k); }
    else if t :| ScanEnd(s, s', t) { ScanEndInv(s, s', t); }
    else if t :| EvictStep(s, s', t) { EvictInv(s, s', t); }
    else if k, v :| Insert(s, s', k, v) { InsertInv(s, s', k, v); }
    else {
      var t, op, k :| Spawn(s, s', t, op, k);
      SpawnInv(s, s', t, op, k);
    }
  }

  // ---------------------------------------------------------------------------------------
  // All runs
  // ---------------------------------------------------------------------------------------

  ghost predicate IsRun(run: seq<State>) {
    && |run| > 0 && Init(run[0])
    && forall i :: 0 <= i < |run| - 1 ==> Next(run[i], run[i + 1])
  }

  /** In no step of the run does an evictor insert a key in the gap. */
  ghost predicate CalmRun(run: seq<State>) {
    forall i :: 0 <= i < |run| - 1 ==> Calm(run[i], run[i + 1])
  }

  lemma {:induction false} RunInv(run: seq<State>, i: nat)
    requires IsRun(run) && CalmRun(run) && i < |run|
    ensures Inv(run[i])
  {
    if i > 0 {
      RunInv(run, i - 1);
      assert Next(run[i - 1], run[i - 1 + 1]) && Calm(run[i - 1], run[i - 1 + 1]);
      NextInv(run[i - 1], run[i]);
    }
  }

  lemma {:induction false} ModeStays(run: seq<State>, i: nat)
    requires IsRun(run) && i < |run|
    ensures run[i].inclusive == run[0].inclusive
  {
    if i > 0 {
      ModeStays(run, i - 1);
      assert Next(run[i - 1], run[i - 1 + 1]);
      StepKeepsMode(run[i - 1], run[i]);
    }
  }

  /** In inclusive mode nothing is removed from the cold tree, so there is no gap and every run is calm. */
  lemma InclusiveIsCalm(run: seq<State>)
    requires IsRun(run) && run[0].inclusive
    ensures CalmRun(run)
  {
    forall i | 0 <= i < |run| - 1 ensures Calm(run[i], run[i + 1]) {
      NoGap(run, i);
    }
  }

  lemma {:induction false} NoGap(run: seq<State>, i: nat)
    requires IsRun(run) && run[0].inclusive && i < |run|
    ensures run[i].inclusive && forall k :: !Gap(run[i], k)
  {
    if i > 0 {
      NoGap(run, i - 1);
      assert Next(run[i - 1], run[i - 1 + 1]);
      NoGapStep(run[i - 1], run[i]);
    }
  }

  lemma NoGapStep(s: State, s': State)
    requires Next(s, s') && s.inclusive && forall k :: !Gap(s, k)
    ensures s'.inclusive && forall k :: !Gap(s', k)
  {
    hide Next;
    StepKeepsMode(s, s');
    forall k ensures !Gap(s', k) {
      assert !Gap(s, k);
    }
  }

  /** The mode stays, and only in exclusive mode a thread gets into the gap. */
  ghost predicate SameMode(s: State, s': State) {
    && s'.inclusive == s.inclusive
    && (s.inclusive ==>
          forall u :: u in s'.threads && s'.threads[u].pc.Filled? ==>
            u in s.threads && s.threads[u] == s'.threads[u])
  }

  lemma StepKeepsMode(s: State, s': State)
    requires Next(s, s')
    ensures SameMode(s, s')
  {
    hide SameMode, UpdateStep, LookupStep, ScanStep, ScanEnd, EvictStep, Insert, Spawn;
    if t :| UpdateStep(s, s', t) { ModeUpdate(s, s', t); }
    else if t, migrate :| LookupStep(s, s', t, migrate) { ModeLookup(s, s', t, migrate); }
    else if t, k :| ScanStep(s, s', t, k) { ModeScan(s, s', t, k); }
    else if t :| ScanEnd(s, s', t) { ModeScanEnd(s, s', t); }
    else if t :| EvictStep(s, s', t) { ModeEvict(s, s', t); }
    else if k, v :| Insert(s, s', k, v) { ModeInsert(s, s', k, v); }
    else {
      var t, op, k :| Spawn(s, s', t, op, k);
      ModeSpawn(s, s', t, op, k);
    }
  }

  lemma ModeUpdate(s: State, s': State, t: nat)
    requires UpdateStep(s, s', t)
    ensures SameMode(s, s')
  {
  }

  lemma ModeLookup(s: State, s': State, t: nat, migrate: bool)
    requires LookupStep(s, s', t, migrate)
    ensures SameMode(s, s')
  {
    if s.threads[t].pc.LProbe? {
      ModeProbe(s, s', t, migrate);
    } else {
      hide SameMode, Get;
      ModeMoved(s, s', t, s'.threads[t]);
    }
  }

  lemma ModeProbe(s: State, s': State, t: nat, migrate: bool)
    requires LookupStep(s, s', t, migrate) && s.threads[t].pc.LProbe?
    ensures SameMode(s, s')
  {
    var k := s.threads[t].key;
    if k !in s.hot || !s.hot[k].inflight {
      hide SameMode, Get;
      ModeMoved(s, s', t, s'.threads[t]);
    }
  }

  lemma ModeMoved(s: State, s': State, t: nat, th: Thread)
    requires s'.inclusive == s.inclusive && s'.threads == s.threads[t := th] && (s.inclusive ==> !th.pc.Filled?)
    ensures SameMode(s, s')
  {
  }

  lemma ModeScan(s: State, s': State, t: nat, k: nat)
    requires ScanStep(s, s', t, k)
    ensures SameMode(s, s')
  {
  }

  lemma ModeScanEnd(s: State, s': State, t: nat)
    requires ScanEnd(s, s', t)
    ensures SameMode(s, s')
  {
  }

  lemma ModeEvict(s: State, s': State, t: nat)
    requires EvictStep(s, s', t)
    ensures SameMode(s, s')
  {
  }

  lemma ModeInsert(s: State, s': State, k: nat, v: int)
    requires Insert(s, s', k, v)
    ensures SameMode(s, s')
  {
  }

  lemma ModeSpawn(s: State, s': State, t: nat, op: Op, k: nat)
    requires Spawn(s, s', t, op, k)
    ensures SameMode(s, s')
  {
  }

  /**
   The two trees are one map. For every key, in every reachable state: an inflight hot entry has
   exactly one token owner; a settled hot entry holds the last written payload; its cold copy agrees
   unless it is dirty (inclusive), or does not exist unless a lookup is about to remove it (exclusive);
   a key that is not hot has its last written payload in the cold tree, or was never written.
   */
  lemma TreesAgree(run: seq<State>, i: nat, k: nat)
    requires IsRun(run) && CalmRun(run) && i < |run|
    ensures var s := run[i];
            && (Inflight(s, k) <==> exists t :: t in s.threads && Holds(s.threads[t], k))
            && (forall t, u :: t in s.threads && u in s.threads && Holds(s.threads[t], k) && Holds(s.threads[u], k) ==>
                  t == u)
            && (k in s.hot && !s.hot[k].inflight ==>
                  && Get(s.latest, k) == Some(s.hot[k].payload)
                  && (s.inclusive && !s.hot[k].modified ==> Get(s.cold, k) == Some(s.hot[k].payload))
                  && (!s.inclusive ==> k !in s.cold || Gap(s, k)))
            && (k !in s.hot ==> Get(s.cold, k) == Get(s.latest, k))
  {
    RunInv(run, i);
    assert KeyOk(run[i], k);
  }

  /** In exclusive mode a key is in both trees only while its hot entry is inflight or it is in the gap. */
  lemma ExclusiveInBoth(run: seq<State>, i: nat, k: nat)
    requires IsRun(run) && CalmRun(run) && i < |run| && !run[i].inclusive
    requires k in run[i].hot && k in run[i].cold
    ensures run[i].hot[k].inflight || Gap(run[i], k)
  {
    RunInv(run, i);
    assert KeyOk(run[i], k);
  }

  /** What a lookup is going to return, once that is settled. */
  function Result(pc: Pc): (r: Option<Option<int>>) {
    match pc
    case Filled(val) => Some(Some(val))
    case Done(res) => Some(res)
    case _ => None
  }

  /** A lookup settles on the payload last written, as of the step in which it does, and returns that. */
  lemma LookupIsLatest(run: seq<State>, i: nat, t: nat, migrate: bool)
    requires IsRun(run) && CalmRun(run) && i + 1 < |run|
    requires LookupStep(run[i], run[i + 1], t, migrate) && t in run[i + 1].threads
    ensures var before, after := Result(run[i].threads[t].pc), Result(run[i + 1].threads[t].pc);
            && (before.None? && after.Some? ==> after == Some(Get(run[i].latest, run[i].threads[t].key)))
            && (before.Some? && run[i].threads[t].op.LookupOp? ==> after == before)
  {
    RunInv(run, i);
    var s := run[i];
    assert ThreadOk(s, s.threads[t]) && KeyOk(s, s.threads[t].key);
  }

  /** An update acts on a settled entry: the payload it replaces is the one written last. */
  lemma UpdateReplacesLatest(run: seq<State>, i: nat, t: nat)
    requires IsRun(run) && CalmRun(run) && i + 1 < |run|
    requires UpdateStep(run[i], run[i + 1], t) && run[i + 1].threads[t].pc.Done?
    ensures var k := run[i].threads[t].key;
            && k in run[i].hot && k in run[i + 1].hot
            && Get(run[i].latest, k) == Some(run[i].hot[k].payload)
            && Get(run[i + 1].latest, k) == Some(run[i + 1].hot[k].payload)
            && run[i + 1].hot[k].payload == run[i].threads[t].op.val
  {
    RunInv(run, i);
    assert KeyOk(run[i], run[i].threads[t].key);
  }

  /** The asserts of eviction hold: the cold insert meets no duplicate and the hot removal finds its key. */
  lemma EvictionAsserts(run: seq<State>, i: nat, t: nat)
    requires IsRun(run) && CalmRun(run) && i < |run|
    requires t in run[i].threads && run[i].threads[t].pc.Evict? && |run[i].threads[t].pc.list| > 0
    ensures var k := run[i].threads[t].pc.list[0].key;
            && k in run[i].hot
            && (run[i].threads[t].pc.phase == InsertCold ==> (k in run[i].cold <==> Gap(run[i], k)))
  {
    RunInv(run, i);
    assert ThreadOk(run[i], run[i].threads[t]);
  }

  /** The asserts of lookup hold: a placeholder is found in the hot tree, and the copy to remove in the cold one. */
  lemma PlaceholderAsserts(run: seq<State>, i: nat, t: nat)
    requires IsRun(run) && CalmRun(run) && i < |run| && t in run[i].threads
    ensures run[i].threads[t].pc.Token? || run[i].threads[t].pc.ReadCold? ==> Inflight(run[i], run[i].threads[t].key)
    ensures run[i].threads[t].pc.Filled? ==> run[i].threads[t].key in run[i].cold
  {
    RunInv(run, i);
    var th := run[i].threads[t];
    assert ThreadOk(run[i], th);
    assert th.pc.Token? || th.pc.ReadCold? ==> Holds(th, th.key);
  }
}
