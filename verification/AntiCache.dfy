/**
 The anti-cache: tuples live in memory in order of use, or in blocks on storage under tombstones that
 record block and offset. Together they are one map.
 */
module AntiCache {
  import opened AntiRing

  type Payload = int

  datatype Tuple = Tuple(key: Key, payload: Payload)

  datatype Tombstone = Tombstone(block: nat, offset: nat)

  type Evicted = map<Key, Tombstone>

  type Blocks = map<nat, seq<Tuple>>

  type Size = n: nat | n > 0 witness 1

  // ---------------------------------------------------------------------------------------
  // Tombstones and blocks
  // ---------------------------------------------------------------------------------------

  /** Tuples of block `b` before index `from` have already been brought back. */
  predicate Live(b: nat, from: nat, block: nat, i: nat) { block == b ==> from <= i }

  predicate TupleMarked(evicted: Evicted, blocks: Blocks, size: Size, block: nat, i: nat)
    requires block in blocks && i < |blocks[block]|
  {
    blocks[block][i].key in evicted && evicted[blocks[block][i].key] == Tombstone(block, i * size)
  }

  predicate MarkHolds(t: Tombstone, k: Key, blocks: Blocks, size: Size, b: nat, from: nat) {
    && t.block in blocks
    && exists i ::
         0 <= i < |blocks[t.block]| && Live(b, from, t.block, i) && blocks[t.block][i].key == k && t.offset == i * size
  }

  /** Tombstones and live tuples of blocks correspond one to one. */
  ghost predicate Placed(evicted: Evicted, blocks: Blocks, size: Size, b: nat, from: nat) {
    && (forall block, i :: block in blocks && 0 <= i < |blocks[block]| && Live(b, from, block, i) ==>
          TupleMarked(evicted, blocks, size, block, i))
    && (forall k :: k in evicted ==> MarkHolds(evicted[k], k, blocks, size, b, from))
  }

  /** Reading a block at a byte offset. */
  function PayloadIn(tuples: seq<Tuple>, offset: nat, size: Size): (p: Payload) {
    if tuples == [] then 0
    else if offset < size then tuples[0].payload
    else PayloadIn(tuples[1..], offset - size, size)
  }

  lemma {:induction false} OffsetIsIndex(tuples: seq<Tuple>, i: nat, size: Size)
    requires i < |tuples|
    ensures PayloadIn(tuples, i * size, size) == tuples[i].payload
  {
    if i > 0 {
      assert i * size == (i - 1) * size + size;
      OffsetIsIndex(tuples[1..], i - 1, size);
    }
  }

  /** The payload at a tombstone's block and offset. */
  function PayloadAt(t: Tombstone, blocks: Blocks, size: Size): (p: Payload) {
    if t.block in blocks then PayloadIn(blocks[t.block], t.offset, size) else 0
  }

  function Merged(cache: map<Key, Payload>, evicted: Evicted, blocks: Blocks, size: Size): (m: map<Key, Payload>) {
    map k | k in cache.Keys + evicted.Keys :: if k in cache then cache[k] else PayloadAt(evicted[k], blocks, size)
  }

  lemma MarkedPayload(evicted: Evicted, blocks: Blocks, size: Size, b: nat, from: nat, k: Key) returns (i: nat)
    requires Placed(evicted, blocks, size, b, from) && k in evicted
    ensures var t := evicted[k];
            && t.block in blocks && i < |blocks[t.block]| && Live(b, from, t.block, i)
            && blocks[t.block][i].key == k && t.offset == i * size
            && PayloadAt(t, blocks, size) == blocks[t.block][i].payload
  {
    var t := evicted[k];
    assert MarkHolds(t, k, blocks, size, b, from);
    i :| 0 <= i < |blocks[t.block]| && Live(b, from, t.block, i) && blocks[t.block][i].key == k && t.offset == i * size;
    OffsetIsIndex(blocks[t.block], i, size);
  }

  // ---------------------------------------------------------------------------------------
  // Moving one tuple out, and one back
  // ---------------------------------------------------------------------------------------

  /** The tuple of `k` appended to a block, with its tombstone. */
  ghost function MarkedAt(evicted: Evicted, blocks: Blocks, size: Size, block: nat, k: Key): (r: Evicted)
    requires block in blocks
  {
    evicted[k := Tombstone(block, |blocks[block]| * size)]
  }

  ghost function Appended(blocks: Blocks, block: nat, t: Tuple): (r: Blocks)
    requires block in blocks
  {
    blocks[block := blocks[block] + [t]]
  }

  lemma MovedOut(cache: map<Key, Payload>, evicted: Evicted, blocks: Blocks, size: Size, block: nat, k: Key)
    requires Placed(evicted, blocks, size, 0, 0) && block in blocks
    requires k in cache && cache.Keys !! evicted.Keys
    ensures var evicted' := MarkedAt(evicted, blocks, size, block, k);
            var blocks' := Appended(blocks, block, Tuple(k, cache[k]));
            && Placed(evicted', blocks', size, 0, 0)
            && Merged(cache - {k}, evicted', blocks', size) == Merged(cache, evicted, blocks, size)
  {
    hide Placed, PayloadAt, Merged;
    var evicted', blocks' := MarkedAt(evicted, blocks, size, block, k), Appended(blocks, block, Tuple(k, cache[k]));
    StillPlaced(evicted, blocks, size, block, k, cache[k]);
    GoesThere(evicted, blocks, size, block, k, cache[k]);
    forall q | q in evicted ensures PayloadAt(evicted'[q], blocks', size) == PayloadAt(evicted[q], blocks, size) {
      StaysThere(evicted, blocks, size, block, k, cache[k], q);
    }
    MergedAcross(cache, evicted, blocks, evicted', blocks', size, k);
  }

  lemma MergedAcross(cache: map<Key, Payload>, evicted: Evicted, blocks: Blocks, evicted': Evicted, blocks': Blocks,
                     size: Size, k: Key)
    requires k in cache && cache.Keys !! evicted.Keys && evicted'.Keys == evicted.Keys + {k}
    requires PayloadAt(evicted'[k], blocks', size) == cache[k]
    requires forall q :: q in evicted ==>
               PayloadAt(evicted'[q], blocks', size) == PayloadAt(evicted[q], blocks, size)
    ensures Merged(cache - {k}, evicted', blocks', size) == Merged(cache, evicted, blocks, size)
  {
    hide PayloadAt;
  }

  lemma GoesThere(evicted: Evicted, blocks: Blocks, size: Size, block: nat, k: Key, v: Payload)
    requires block in blocks
    ensures PayloadAt(MarkedAt(evicted, blocks, size, block, k)[k], Appended(blocks, block, Tuple(k, v)), size) == v
  {
    OffsetIsIndex(Appended(blocks, block, Tuple(k, v))[block], |blocks[block]|, size);
  }

  lemma StaysThere(evicted: Evicted, blocks: Blocks, size: Size, block: nat, k: Key, v: Payload, q: Key)
    requires Placed(evicted, blocks, size, 0, 0) && block in blocks && k !in evicted && q in evicted
    ensures var evicted', blocks' := MarkedAt(evicted, blocks, size, block, k), Appended(blocks, block, Tuple(k, v));
            PayloadAt(evicted'[q], blocks', size) == PayloadAt(evicted[q], blocks, size)
  {
    StillPlaced(evicted, blocks, size, block, k, v);
    var evicted', blocks' := MarkedAt(evicted, blocks, size, block, k), Appended(blocks, block, Tuple(k, v));
    var i := MarkedPayload(evicted, blocks, size, 0, 0, q);
    var j := MarkedPayload(evicted', blocks', size, 0, 0, q);
    hide Placed;
    SameOffset(i, j, size);
  }

  lemma StillPlaced(evicted: Evicted, blocks: Blocks, size: Size, block: nat, k: Key, v: Payload)
    requires Placed(evicted, blocks, size, 0, 0) && block in blocks && k !in evicted
    ensures Placed(MarkedAt(evicted, blocks, size, block, k), Appended(blocks, block, Tuple(k, v)), size, 0, 0)
  {
    var tuples := blocks[block];
    var evicted', blocks' := MarkedAt(evicted, blocks, size, block, k), Appended(blocks, block, Tuple(k, v));
    forall b, i | b in blocks' && 0 <= i < |blocks'[b]| ensures TupleMarked(evicted', blocks', size, b, i) {
      if b != block || i < |tuples| {
        assert TupleMarked(evicted, blocks, size, b, i);
      }
    }
    forall q | q in evicted' ensures MarkHolds(evicted'[q], q, blocks', size, 0, 0) {
      if q == k {
        assert blocks'[block][|tuples|].key == k;
      } else {
        var i := MarkedPayload(evicted, blocks, size, 0, 0, q);
        assert blocks'[evicted[q].block][i] == blocks[evicted[q].block][i];
      }
    }
  }

  lemma SameOffset(i: nat, j: nat, size: Size)
    requires i * size == j * size
    ensures i == j
  {
    assert (i - j) * size == 0;
  }

  lemma MovedBack(cache: map<Key, Payload>, evicted: Evicted, blocks: Blocks, size: Size, b: nat, from: nat)
    requires Placed(evicted, blocks, size, b, from) && b in blocks && from < |blocks[b]| && cache.Keys !! evicted.Keys
    ensures var t := blocks[b][from];
            && t.key in evicted && t.key !in cache
            && Placed(evicted - {t.key}, blocks, size, b, from + 1)
            && Merged(cache[t.key := t.payload], evicted - {t.key}, blocks, size)
            == Merged(cache, evicted, blocks, size)
  {
    var t := blocks[b][from];
    assert TupleMarked(evicted, blocks, size, b, from);
    var evicted' := evicted - {t.key};
    forall c, i | c in blocks && 0 <= i < |blocks[c]| && Live(b, from + 1, c, i)
      ensures TupleMarked(evicted', blocks, size, c, i)
    {
      assert TupleMarked(evicted, blocks, size, c, i);
      if blocks[c][i].key == t.key {
        SameOffset(i, from, size);
      }
    }
    forall q | q in evicted' ensures MarkHolds(evicted'[q], q, blocks, size, b, from + 1) {
      var i := MarkedPayload(evicted, blocks, size, b, from, q);
      assert Live(b, from + 1, evicted[q].block, i);
    }
    OffsetIsIndex(blocks[b], from, size);
  }

  lemma StartBlock(evicted: Evicted, blocks: Blocks, size: Size, b: nat)
    requires Placed(evicted, blocks, size, 0, 0)
    ensures Placed(evicted, blocks, size, b, 0)
  {
    forall q | q in evicted ensures MarkHolds(evicted[q], q, blocks, size, b, 0) {
      var i := MarkedPayload(evicted, blocks, size, 0, 0, q);
      assert Live(b, 0, evicted[q].block, i);
    }
  }

  lemma EmptyBlock(cache: map<Key, Payload>, evicted: Evicted, blocks: Blocks, size: Size, b: nat)
    requires Placed(evicted, blocks, size, 0, 0) && b !in blocks
    ensures Placed(evicted, blocks[b := []], size, 0, 0)
    ensures Merged(cache, evicted, blocks[b := []], size) == Merged(cache, evicted, blocks, size)
  {
    var blocks' := blocks[b := []];
    forall q | q in evicted ensures MarkHolds(evicted[q], q, blocks', size, 0, 0) && evicted[q].block != b {
      var i := MarkedPayload(evicted, blocks, size, 0, 0, q);
      assert blocks'[evicted[q].block] == blocks[evicted[q].block];
    }
    forall c, i | c in blocks' && 0 <= i < |blocks'[c]| ensures TupleMarked(evicted, blocks', size, c, i) {
      assert TupleMarked(evicted, blocks, size, c, i);
    }
  }

  lemma MergedPut(cache: map<Key, Payload>, evicted: Evicted, blocks: Blocks, size: Size, k: Key, v: Payload)
    ensures Merged(cache[k := v], evicted, blocks, size) == Merged(cache, evicted, blocks, size)[k := v]
    ensures k in Merged(cache, evicted, blocks, size) <==> k in cache || k in evicted
  {
  }

  lemma BlockDone(cache: map<Key, Payload>, evicted: Evicted, blocks: Blocks, size: Size, b: nat)
    requires b in blocks && Placed(evicted, blocks, size, b, |blocks[b]|)
    ensures Placed(evicted, blocks - {b}, size, 0, 0)
    ensures Merged(cache, evicted, blocks - {b}, size) == Merged(cache, evicted, blocks, size)
  {
    forall q | q in evicted ensures MarkHolds(evicted[q], q, blocks - {b}, size, 0, 0) && evicted[q].block != b {
      var i := MarkedPayload(evicted, blocks, size, b, |blocks[b]|, q);
      assert (blocks - {b})[evicted[q].block] == blocks[evicted[q].block];
    }
    forall c, i | c in blocks - {b} && 0 <= i < |blocks[c]| ensures TupleMarked(evicted, blocks - {b}, size, c, i) {
      assert TupleMarked(evicted, blocks, size, c, i);
    }
  }

  /** The keys of a block other than `k`, in the order of the block. */
  function Others(tuples: seq<Tuple>, k: Key): (keys: seq<Key>) {
    if tuples == [] then []
    else
      var t := tuples[|tuples| - 1];
      Others(tuples[..|tuples| - 1], k) + if t.key == k then [] else [t.key]
  }

  /** The order of use when the first `i` tuples of a block have come back for the sake of the one at `at`. */
  ghost function Coming(before: seq<Key>, tuples: seq<Tuple>, at: nat, i: nat): (order: seq<Key>)
    requires at < |tuples| && i <= |tuples|
  {
    (if at < i then [tuples[at].key] else []) + before + Others(tuples[..i], tuples[at].key)
  }

  /** No other tuple of the block has the same key. */
  predicate OnlyOne(tuples: seq<Tuple>, at: nat) {
    at < |tuples| && forall j :: 0 <= j < |tuples| && j != at ==> tuples[j].key != tuples[at].key
  }

  /** The wanted tuple goes to the front, the others to the back. */
  lemma OneMore(before: seq<Key>, tuples: seq<Tuple>, at: nat, i: nat)
    requires i < |tuples| && OnlyOne(tuples, at)
    ensures Coming(before, tuples, at, i + 1)
            == if tuples[i].key == tuples[at].key then [tuples[at].key] + Coming(before, tuples, at, i)
               else Coming(before, tuples, at, i) + [tuples[i].key]
  {
    assert tuples[..i + 1][..i] == tuples[..i];
  }

  lemma AllCame(before: seq<Key>, tuples: seq<Tuple>, at: nat)
    requires at < |tuples|
    ensures Coming(before, tuples, at, 0) == before
    ensures Coming(before, tuples, at, |tuples|) == [tuples[at].key] + before + Others(tuples, tuples[at].key)
  {
    assert tuples[..|tuples|] == tuples;
  }

  lemma OneMark(evicted: Evicted, blocks: Blocks, size: Size, b: nat, at: nat)
    requires Placed(evicted, blocks, size, b, 0) && b in blocks && at < |blocks[b]|
    ensures OnlyOne(blocks[b], at)
  {
    forall j | 0 <= j < |blocks[b]| && blocks[b][j].key == blocks[b][at].key ensures j == at {
      assert TupleMarked(evicted, blocks, size, b, j) && TupleMarked(evicted, blocks, size, b, at);
      SameOffset(j, at, size);
    }
  }

  /** The nodes of the ring, in this order, are exactly the cached keys. */
  ghost predicate Matching(cache: map<Key, Payload>, ring: Ring, order: seq<Key>) {
    Ringed(ring, order) && ring.links.Keys == cache.Keys && (forall k :: k in cache <==> k in order)
  }

  /** No key is both cached and evicted. */
  ghost predicate Split(cache: map<Key, Payload>, ring: Ring, evicted: Evicted, order: seq<Key>) {
    Matching(cache, ring, order) && cache.Keys !! evicted.Keys
  }

  predicate Room(tight: bool, size: Size, blockSize: nat, count: nat) {
    if tight then count * size + size <= blockSize else count * size < blockSize
  }

  /** A tight block keeps to its size; another one is closed by the tuple that reaches it. */
  predicate Bounded(tight: bool, size: Size, blockSize: nat, count: nat) {
    count == 0 || (if tight then count * size <= blockSize else (count - 1) * size < blockSize)
  }

  /** No further tuple goes into a block of so many. */
  predicate Closed(tight: bool, size: Size, blockSize: nat, count: nat) {
    if tight then (count + 1) * size > blockSize else count * size >= blockSize
  }

  lemma RoomIsBounded(tight: bool, size: Size, blockSize: nat, count: nat)
    ensures Room(tight, size, blockSize, count) <==> !Closed(tight, size, blockSize, count)
    ensures Room(tight, size, blockSize, count) ==> Bounded(tight, size, blockSize, count + 1)
  {
    assert (count + 1) * size == count * size + size;
  }

  predicate AllBounded(blocks: Blocks, next: nat, tight: bool, size: Size, blockSize: nat) {
    forall b :: b in blocks ==> b < next && Bounded(tight, size, blockSize, |blocks[b]|)
  }

  lemma StillBounded(blocks: Blocks, next: nat, tight: bool, size: Size, blockSize: nat, b: nat, tuples: seq<Tuple>)
    requires AllBounded(blocks, next, tight, size, blockSize) && b < next
    requires Bounded(tight, size, blockSize, |tuples|)
    ensures AllBounded(blocks[b := tuples], next, tight, size, blockSize)
    ensures AllBounded(blocks - {b}, next, tight, size, blockSize)
  {
  }

  class Store {
    const size: Size          // bytes of a tuple
    const blockSize: nat      // bytes of a block
    const tight: bool         // blocks may not exceed their size; otherwise they are closed once they reach it

    var cache: map<Key, Payload>
    var ring: Ring
    var evicted: Evicted
    var blocks: Blocks
    var nextBlock: nat
    ghost var order: seq<Key> // the nodes of the ring, most recently used first

    /** A block with `count` tuples takes another one. */
    predicate HasRoom(count: nat) { Room(tight, size, blockSize, count) }

    ghost predicate Cached()
      reads this
    {
      Split(cache, ring, evicted, order)
    }

    /** The ring holds exactly the cached keys. */
    ghost predicate InOrder()
      reads this
    {
      Matching(cache, ring, order)
    }

    ghost predicate Valid()
      reads this
    {
      Cached() && Placed(evicted, blocks, size, 0, 0) && AllBounded(blocks, nextBlock, tight, size, blockSize)
    }

    /** The one map the store implements. */
    function Model(): (m: map<Key, Payload>)
      reads this
    {
      Merged(cache, evicted, blocks, size)
    }

    constructor (size: Size, blockSize: nat, tight: bool)
      ensures Valid() && Model() == map[] && this.size == size && this.blockSize == blockSize && this.tight == tight
    {
      this.size, this.blockSize, this.tight := size, blockSize, tight;
      cache, ring, evicted, blocks, nextBlock, order := map[], EMPTY_RING, map[], map[], 0, [];
    }

    /** Takes the least recently used tuple out of the ring and the cache. */
    method Unlink(k: Key)
      requires Cached() && order != [] && k == order[|order| - 1]
      modifies this`cache, this`ring, this`order
      ensures Cached() && order == old(order)[..|old(order)| - 1] && cache == old(cache) - {k}
    {
      ghost var p := |order| - 1;
      RemoveOk(ring, order, p);
      DroppedIs(order, p);
      assert Dropped(order, p) == order[..p];
      ring := RemoveSelf(ring, k);
      order := order[..p];
      OutsideOk(ring, order, k);
      ring := ring.(links := ring.links - {k});
      cache := cache - {k};
    }

    /** Moves tuples from the old end of the ring into one new block. */
    method EvictBunch()
      requires Valid()
      modifies this
      ensures Valid() && Model() == old(Model())
      ensures order <= old(order) && (HasRoom(0) && old(order) != [] ==> order < old(order))
      ensures !HasRoom(0) ==> order == old(order) && cache == old(cache)
      ensures old(nextBlock) in blocks && |blocks[old(nextBlock)]| == |old(order)| - |order|
      ensures order == [] || Closed(tight, size, blockSize, |blocks[old(nextBlock)]|)
    {
      hide Placed, Merged, Ringed;
      var id := nextBlock;
      nextBlock := nextBlock + 1;
      EmptyBlock(cache, evicted, blocks, size, id);
      blocks := blocks[id := []];
      var count, p := 0, ring.last;
      LastNode(ring, order);
      while p != Head && HasRoom(count)
        invariant Valid() && Model() == old(Model()) && id in blocks && count == |blocks[id]|
        invariant p == ring.last && (p == Head <==> order == []) && p != Null
        invariant order <= old(order) && (count > 0 ==> order < old(order)) && count == |old(order)| - |order|
                  && (count == 0 ==> order == old(order) && cache == old(cache))
        invariant count > 0 ==> HasRoom(0)
        decreases |order|
      {
        p := EvictLast(id, p.key);
        count := count + 1;
      }
      RoomIsBounded(tight, size, blockSize, count);
    }

    /** Appends the least recently used tuple to block `id`; returns the next candidate. */
    method EvictLast(id: nat, k: Key) returns (t: Ptr)
      requires Valid() && id in blocks && ring.last == At(k) && HasRoom(|blocks[id]|)
      modifies this`cache, this`ring, this`order, this`evicted, this`blocks
      ensures Valid() && Model() == old(Model()) && id in blocks && |blocks[id]| == |old(blocks[id])| + 1
      ensures old(order) != [] && order == old(order)[..|old(order)| - 1] && t == ring.last != Null
              && (t == Head <==> order == [])
    {
      hide Placed, Merged, Ringed, Room, Bounded, Closed;
      assert id < nextBlock;
      RoomIsBounded(tight, size, blockSize, |blocks[id]|);
      LastNode(ring, order);
      t := ring.links[k].prev;
      MovedOut(cache, evicted, blocks, size, id, k);
      var tuple := Tuple(k, cache[k]);
      Unlink(k);
      LastNode(ring, order);
      StillBounded(blocks, nextBlock, tight, size, blockSize, id, blocks[id] + [tuple]);
      evicted := evicted[k := Tombstone(id, |blocks[id]| * size)];
      blocks := blocks[id := blocks[id] + [tuple]];
    }

    /** Everything can be moved out of memory, provided a block has room for a tuple at all. */
    method EvictAll()
      requires Valid() && HasRoom(0)
      modifies this
      ensures Valid() && Model() == old(Model()) && cache == map[]
    {
      while |cache| > 0
        invariant Valid() && Model() == old(Model())
        decreases |order|
      {
        assert order != [];
        EvictBunch();
      }
    }

    /** Evictions under pressure; how many rounds it takes depends on sizes that are not modelled. */
    method EvictRounds(rounds: nat)
      requires Valid()
      modifies this
      ensures Valid() && Model() == old(Model()) && (rounds == 0 ==> cache == old(cache) && evicted == old(evicted))
      ensures order <= old(order) && (rounds == 0 ==> order == old(order))
    {
      for i := 0 to rounds
        invariant Valid() && Model() == old(Model()) && (i == 0 ==> cache == old(cache) && evicted == old(evicted))
        invariant order <= old(order) && (i == 0 ==> order == old(order))
      {
        EvictBunch();
      }
    }

    /** Moves a node to one end of the ring. */
    method Touch(k: Key, toHead: bool)
      requires Cached() && k in cache
      modifies this`ring, this`order
      ensures Cached()
      ensures exists p :: 0 <= p < |old(order)| && old(order)[p] == k &&
                order == if toHead then [k] + Dropped(old(order), p) else Dropped(old(order), p) + [k]
    {
      ghost var p :| 0 <= p < |order| && order[p] == k;
      RemoveOk(ring, order, p);
      DroppedIs(order, p);
      ring := RemoveSelf(ring, k);
      order := Dropped(order, p);
      if toHead {
        PushFrontOk(ring, order, k);
        ring, order := PushFront(ring, k), [k] + order;
      } else {
        PushBackOk(ring, order, k);
        ring, order := PushBack(ring, k), order + [k];
      }
    }

    /** A new node for a tuple that is not cached. */
    method Admit(k: Key, v: Payload, toHead: bool)
      requires InOrder() && k !in cache
      modifies this`cache, this`ring, this`order
      ensures InOrder() && cache == old(cache)[k := v]
      ensures order == if toHead then [k] + old(order) else old(order) + [k]
    {
      OutsideOk(ring, order, k);
      ring := ring.(links := ring.links[k := Link(Null, Null)]);
      if toHead {
        PushFrontOk(ring, order, k);
        ring, order := PushFront(ring, k), [k] + order;
      } else {
        PushBackOk(ring, order, k);
        ring, order := PushBack(ring, k), order + [k];
      }
      cache := cache[k := v];
    }

    /** Brings one tuple of a block back. */
    method BringOne(b: nat, i: nat, k: Key)
      requires Cached() && Placed(evicted, blocks, size, b, i) && b in blocks && i < |blocks[b]|
      modifies this`cache, this`ring, this`order, this`evicted
      ensures Cached() && Placed(evicted, blocks, size, b, i + 1) && Model() == old(Model())
      ensures var q := blocks[b][i].key; order == if q == k then [k] + old(order) else old(order) + [q]
    {
      hide Placed, Merged, Ringed;
      MovedBack(cache, evicted, blocks, size, b, i);
      var t := blocks[b][i];
      Admit(t.key, t.payload, t.key == k);
      evicted := evicted - {t.key};
    }

    /** Brings all tuples of a block back, for the sake of the one at `at`. */
    method BringBlock(b: nat, k: Key, ghost at: nat)
      requires Cached() && Placed(evicted, blocks, size, b, 0) && b in blocks
      requires at < |blocks[b]| && OnlyOne(blocks[b], at) && blocks[b][at].key == k
      modifies this`cache, this`ring, this`order, this`evicted
      ensures Cached() && Placed(evicted, blocks, size, b, |blocks[b]|) && Model() == old(Model())
      ensures order == Coming(old(order), blocks[b], at, |blocks[b]|)
    {
      hide Placed, Merged, Split, OnlyOne, Coming;
      var tuples := blocks[b];
      AllCame(order, tuples, at);
      for i := 0 to |tuples|
        invariant Cached() && Placed(evicted, blocks, size, b, i) && Model() == old(Model())
        invariant order == Coming(old(order), tuples, at, i)
      {
        OneMore(old(order), tuples, at, i);
        BringOne(b, i, k);
      }
    }

    /** Brings all tuples of the key's block back and drops the block; `rounds` of eviction may follow. */
    method Bring(k: Key, rounds: nat)
      requires Valid() && k in evicted
      modifies this
      ensures Valid() && Model() == old(Model()) && (rounds == 0 ==> k in cache)
      ensures old(evicted[k].block) in old(blocks)
      ensures var all := [k] + old(order) + Others(old(blocks)[old(evicted[k].block)], k);
              order <= all && (rounds == 0 ==> order == all)
    {
      hide Placed, Merged, Ringed;
      var b := evicted[k].block;
      StartBlock(evicted, blocks, size, b);
      ghost var at := MarkedPayload(evicted, blocks, size, 0, 0, k);
      OneMark(evicted, blocks, size, b, at);
      AllCame(order, blocks[b], at);
      hide Coming, Others, OnlyOne;
      BringBlock(b, k, at);
      BlockDone(cache, evicted, blocks, size, b);
      blocks := blocks - {b};
      EvictRounds(rounds);
    }

    /** A cached key is first in the order if its use is sampled, and keeps its place if not. */
    twostate predicate Sampled(k: Key, sampled: bool)
      reads this
    {
      if sampled
      then exists p :: 0 <= p < |old(order)| && old(order)[p] == k && order == [k] + Dropped(old(order), p)
      else order == old(order)
    }

    /** The key is first in the order. */
    ghost predicate First(k: Key)
      reads this
    {
      order != [] && order[0] == k
    }

    method LookupCached(k: Key, sampled: bool) returns (v: Payload)
      requires Valid() && k in cache
      modifies this`ring, this`order
      ensures Valid() && Model() == old(Model()) && k in Model() && v == Model()[k]
      ensures Sampled(k, sampled) && (sampled || old(First(k)) ==> First(k))
    {
      hide Ringed, Placed;
      v := cache[k];
      if sampled {
        Touch(k, true);
      }
    }

    /** Reads the map; `pressure` says how much eviction follows each time a block is brought back. */
    method Lookup(k: Key, sampled: bool, pressure: seq<nat>) returns (found: bool, v: Payload)
      requires Valid()
      modifies this
      decreases |pressure|, k !in cache
      ensures Valid() && Model() == old(Model())
      ensures found <==> k in Model()
      ensures found ==> v == Model()[k]
      ensures k in old(cache) ==> Sampled(k, sampled) && cache == old(cache)
      ensures found && (sampled || k !in old(cache) || old(First(k))) ==> First(k)
      ensures !found ==> order == old(order) && cache == old(cache)
    {
      MergedPut(cache, evicted, blocks, size, k, 0);
      hide Ringed, Placed, Merged, Others;
      if k in cache {
        found := true;
        v := LookupCached(k, sampled);
      } else if k !in evicted {
        found, v := false, 0;
      } else if pressure == [] {
        Bring(k, 0);
        found, v := Lookup(k, sampled, []);
      } else {
        Bring(k, pressure[0]);
        assert k in cache ==> First(k);
        found, v := Lookup(k, sampled, pressure[1..]);
      }
    }

    method UpdateCached(k: Key, v: Payload, sampled: bool)
      requires Valid() && k in cache
      modifies this`cache, this`ring, this`order
      ensures Valid() && Model() == old(Model())[k := v] && k in cache
      ensures Sampled(k, sampled) && (old(First(k)) ==> First(k))
    {
      MergedPut(cache, evicted, blocks, size, k, v);
      hide Merged, Ringed, Placed;
      cache := cache[k := v];
      if sampled {
        Touch(k, true);
      }
    }

    /** Writes the map: present keys get the new payload, absent ones are admitted. */
    method Update(k: Key, v: Payload, sampled: bool, pressure: seq<nat>)
      requires Valid()
      modifies this
      decreases |pressure|, k !in cache
      ensures Valid() && Model() == old(Model())[k := v]
      ensures k in old(cache) ==> Sampled(k, sampled)
      ensures sampled || k !in old(cache) || old(First(k)) ==> First(k)
    {
      hide Ringed, Placed, Merged, Others;
      if k in cache {
        UpdateCached(k, v, sampled);
      } else if k in evicted {
        Bring(k, if pressure == [] then 0 else pressure[0]);
        assert k in cache ==> First(k);
        Update(k, v, sampled, if pressure == [] then [] else pressure[1..]);
      } else {
        Insert(k, v, if pressure == [] then 0 else pressure[0]);
      }
    }

    /** Adds a new key. */
    method Insert(k: Key, v: Payload, rounds: nat)
      requires Valid() && k !in cache
      modifies this
      ensures Valid() <==> k !in old(evicted)
      ensures k !in old(evicted) ==> Model() == old(Model())[k := v]
      ensures First(k) && order[1..] <= old(order) && (rounds == 0 ==> order == [k] + old(order))
    {
      MergedPut(cache, evicted, blocks, size, k, v);
      hide Placed, Merged, Ringed;
      assert k !in order;
      EvictRounds(rounds);
      assert k !in order;
      MergedPut(cache, evicted, blocks, size, k, v);
      Admit(k, v, true);
      assert k in evicted ==> k in cache.Keys * evicted.Keys;
    }
  }
}
