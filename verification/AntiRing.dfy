/**
 The ring of cached tuples in order of use: a sentinel and doubly linked nodes, known by their keys.
 */
module AntiRing {

  type Key = nat

  datatype Ptr = Null | Head | At(key: Key)

  datatype Link = Link(prev: Ptr, next: Ptr)

  // The sentinel's two pointers, and those of every node. A node outside the ring has null pointers.
  datatype Ring = Ring(first: Ptr, last: Ptr, links: map<Key, Link>)

  const EMPTY_RING := Ring(Head, Head, map[])

  predicate Distinct(order: seq<Key>) {
    forall i, j :: 0 <= i < j < |order| ==> order[i] != order[j]
  }

  function PrevOf(order: seq<Key>, i: nat): (p: Ptr)
    requires i < |order|
  {
    if i == 0 then Head else At(order[i - 1])
  }

  function NextOf(order: seq<Key>, i: nat): (p: Ptr)
    requires i < |order|
  {
    if i + 1 == |order| then Head else At(order[i + 1])
  }

  predicate LinkedAt(r: Ring, order: seq<Key>, i: nat)
    requires i < |order|
  {
    order[i] in r.links && r.links[order[i]] == Link(PrevOf(order, i), NextOf(order, i))
  }

  /** The ring holds exactly the nodes `order`, first to last, linked both ways. */
  predicate Ringed(r: Ring, order: seq<Key>) {
    && r.first == (if order == [] then Head else At(order[0]))
    && r.last == (if order == [] then Head else At(order[|order| - 1]))
    && Distinct(order) && (forall i :: 0 <= i < |order| ==> LinkedAt(r, order, i))
  }

  function SetNext(r: Ring, p: Ptr, q: Ptr): (r': Ring)
    requires p.At? ==> p.key in r.links
  {
    match p
    case Null => r
    case Head => r.(first := q)
    case At(k) => r.(links := r.links[k := r.links[k].(next := q)])
  }

  function SetPrev(r: Ring, p: Ptr, q: Ptr): (r': Ring)
    requires p.At? ==> p.key in r.links
  {
    match p
    case Null => r
    case Head => r.(last := q)
    case At(k) => r.(links := r.links[k := r.links[k].(prev := q)])
  }

  predicate Pointed(r: Ring, p: Ptr) { p.At? ==> p.key in r.links }

  function RemoveSelf(r: Ring, k: Key): (r': Ring)
    requires k in r.links && Pointed(r, r.links[k].prev) && Pointed(r, r.links[k].next)
  {
    var l := r.links[k];
    if l.prev == Null || l.next == Null then r
    else
      var r1 := SetPrev(SetNext(r, l.prev, l.next), l.next, l.prev);
      r1.(links := r1.links[k := Link(Null, Null)])
  }

  function PushFront(r: Ring, k: Key): (r': Ring)
    requires k in r.links && Pointed(r, r.first)
  {
    var r1 := r.(links := r.links[k := Link(Head, r.first)]);
    SetPrev(r1, r.first, At(k)).(first := At(k))
  }

  function PushBack(r: Ring, k: Key): (r': Ring)
    requires k in r.links && Pointed(r, r.last)
  {
    var r1 := r.(links := r.links[k := Link(r.last, Head)]);
    SetNext(r1, r.last, At(k)).(last := At(k))
  }

  // ---------------------------------------------------------------------------------------
  // What they do to the order
  // ---------------------------------------------------------------------------------------

  function Dropped(order: seq<Key>, p: nat): (r: seq<Key>)
    requires p < |order|
  {
    seq(|order| - 1, i requires 0 <= i < |order| - 1 => if i < p then order[i] else order[i + 1])
  }

  lemma PointersOk(r: Ring, order: seq<Key>, p: nat)
    requires Ringed(r, order) && p < |order|
    ensures LinkedAt(r, order, p) && Pointed(r, r.links[order[p]].prev) && Pointed(r, r.links[order[p]].next)
    ensures p > 0 ==> LinkedAt(r, order, p - 1)
    ensures p + 1 < |order| ==> LinkedAt(r, order, p + 1)
  {
    assert LinkedAt(r, order, p);
    assert p > 0 ==> LinkedAt(r, order, p - 1);
    assert p + 1 < |order| ==> LinkedAt(r, order, p + 1);
  }

  lemma RemoveOk(r: Ring, order: seq<Key>, p: nat)
    requires Ringed(r, order) && p < |order|
    ensures LinkedAt(r, order, p) && Pointed(r, r.links[order[p]].prev) && Pointed(r, r.links[order[p]].next)
    ensures Ringed(RemoveSelf(r, order[p]), Dropped(order, p))
    ensures RemoveSelf(r, order[p]).links.Keys == r.links.Keys
            && RemoveSelf(r, order[p]).links[order[p]] == Link(Null, Null)
  {
    PointersOk(r, order, p);
    var r', order' := RemoveSelf(r, order[p]), Dropped(order, p);
    forall i | 0 <= i < |order'| ensures LinkedAt(r', order', i) {
      assert LinkedAt(r, order, if i < p then i else i + 1);
    }
  }

  lemma PushFrontOk(r: Ring, order: seq<Key>, k: Key)
    requires Ringed(r, order) && k in r.links && k !in order
    ensures Pointed(r, r.first) && Ringed(PushFront(r, k), [k] + order) && PushFront(r, k).links.Keys == r.links.Keys
  {
    assert order != [] ==> LinkedAt(r, order, 0);
    var r', order' := PushFront(r, k), [k] + order;
    forall i | 0 <= i < |order'| ensures LinkedAt(r', order', i) {
      assert i > 0 ==> LinkedAt(r, order, i - 1);
    }
  }

  lemma PushBackOk(r: Ring, order: seq<Key>, k: Key)
    requires Ringed(r, order) && k in r.links && k !in order
    ensures Pointed(r, r.last) && Ringed(PushBack(r, k), order + [k]) && PushBack(r, k).links.Keys == r.links.Keys
  {
    assert order != [] ==> LinkedAt(r, order, |order| - 1);
    var r', order' := PushBack(r, k), order + [k];
    forall i | 0 <= i < |order'| ensures LinkedAt(r', order', i) {
      assert i < |order| ==> LinkedAt(r, order, i);
    }
  }

  /** A node outside the ring can be allocated or freed. */
  lemma OutsideOk(r: Ring, order: seq<Key>, k: Key)
    requires Ringed(r, order) && k !in order
    ensures Ringed(r.(links := r.links[k := Link(Null, Null)]), order)
    ensures Ringed(r.(links := r.links - {k}), order)
  {
    var r1, r2 := r.(links := r.links[k := Link(Null, Null)]), r.(links := r.links - {k});
    forall i | 0 <= i < |order| ensures LinkedAt(r1, order, i) && LinkedAt(r2, order, i) {
      assert LinkedAt(r, order, i) && order[i] != k;
    }
  }

  lemma DroppedIs(order: seq<Key>, p: nat)
    requires p < |order| && Distinct(order)
    ensures Distinct(Dropped(order, p)) && order[p] !in Dropped(order, p)
    ensures forall k :: k in order <==> k == order[p] || k in Dropped(order, p)
  {
    var d := Dropped(order, p);
    forall k | k in order && k != order[p] ensures k in d {
      var i :| 0 <= i < |order| && order[i] == k;
      assert d[if i < p then i else i - 1] == k;
    }
    forall k | k in d ensures k in order && k != order[p] {
      var i :| 0 <= i < |d| && d[i] == k;
      assert k == order[if i < p then i else i + 1];
    }
  }

  lemma LastNode(r: Ring, order: seq<Key>)
    requires Ringed(r, order)
    ensures r.last == Head <==> order == []
    ensures order != [] ==>
              && r.last == At(order[|order| - 1]) && order[|order| - 1] in r.links
              && r.links[order[|order| - 1]].prev == PrevOf(order, |order| - 1)
  {
    assert order != [] ==> LinkedAt(r, order, |order| - 1);
  }
}
