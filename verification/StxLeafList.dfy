/**
 The doubly linked list of leaves: pointers by leaf identity, a head and a tail.
 */
module StxLeafList {

  datatype Ptr = Null | To(id: nat)

  datatype Link = Link(prev: Ptr, next: Ptr)

  datatype LeafList = LeafList(head: Ptr, tail: Ptr, links: map<nat, Link>)

  const NO_LEAVES := LeafList(Null, Null, map[])

  function PrevOf(ids: seq<nat>, i: nat): (p: Ptr)
    requires i < |ids|
  {
    if i == 0 then Null else To(ids[i - 1])
  }

  function NextOf(ids: seq<nat>, i: nat): (p: Ptr)
    requires i < |ids|
  {
    if i + 1 == |ids| then Null else To(ids[i + 1])
  }

  /** The list links exactly the leaves `ids`, in this order and both ways. */
  predicate Chained(list: LeafList, ids: seq<nat>) {
    && list.head == (if ids == [] then Null else To(ids[0]))
    && list.tail == (if ids == [] then Null else To(ids[|ids| - 1]))
    && Distinct(ids) && (forall i :: 0 <= i < |ids| ==> LinkedAt(list, ids, i))
  }

  /** A new leaf goes behind leaf `id`. */
  function InsertAfter(list: LeafList, id: nat, twin: nat): (r: LeafList)
    requires id in list.links
    requires list.links[id].next.To? ==> list.links[id].next.id in list.links
  {
    var next := list.links[id].next;
    var links := list.links[twin := Link(To(id), next)];
    var links := if next.Null? then links else links[next.id := links[next.id].(prev := To(twin))];
    var links := links[id := links[id].(next := To(twin))];
    LeafList(list.head, if next.Null? then To(twin) else list.tail, links)
  }

  predicate LinkedAt(list: LeafList, ids: seq<nat>, i: nat)
    requires i < |ids|
  {
    ids[i] in list.links && list.links[ids[i]] == Link(PrevOf(ids, i), NextOf(ids, i))
  }

  predicate Distinct(ids: seq<nat>) {
    forall i, j :: 0 <= i < j < |ids| ==> ids[i] != ids[j]
  }

  function WithId(ids: seq<nat>, p: nat, twin: nat): (r: seq<nat>)
    requires p < |ids|
  {
    seq(|ids| + 1, i requires 0 <= i < |ids| + 1 => if i <= p then ids[i] else if i == p + 1 then twin else ids[i - 1])
  }

  lemma InsertAfterOk(list: LeafList, ids: seq<nat>, p: nat, twin: nat)
    requires Chained(list, ids) && p < |ids| && twin !in ids
    ensures LinkedAt(list, ids, p) && (p + 1 < |ids| ==> LinkedAt(list, ids, p + 1))
    ensures Chained(InsertAfter(list, ids[p], twin), ids[..p + 1] + [twin] + ids[p + 1..])
  {
    assert LinkedAt(list, ids, p) && (p + 1 < |ids| ==> LinkedAt(list, ids, p + 1));
    var r, ids' := InsertAfter(list, ids[p], twin), WithId(ids, p, twin);
    assert ids[..p + 1] + [twin] + ids[p + 1..] == ids';
    forall i | 0 <= i < |ids'| ensures LinkedAt(r, ids', i) {
      LinkedAfter(list, ids, p, twin, i);
    }
    hide LinkedAt;
  }

  lemma LinkedAfter(list: LeafList, ids: seq<nat>, p: nat, twin: nat, i: nat)
    requires Distinct(ids) && p < |ids| && twin !in ids && i <= |ids|
    requires LinkedAt(list, ids, p) && (p + 1 < |ids| ==> LinkedAt(list, ids, p + 1))
    requires i == p + 1 || LinkedAt(list, ids, if i <= p then i else i - 1)
    ensures LinkedAt(InsertAfter(list, ids[p], twin), WithId(ids, p, twin), i)
  {
  }

  /** Leaf `right`, which follows `left`, leaves the list. */
  function RemoveAfter(list: LeafList, left: nat, right: nat): (r: LeafList)
    requires left in list.links && right in list.links
    requires list.links[right].next.To? ==> list.links[right].next.id in list.links
  {
    var next := list.links[right].next;
    var links := list.links[left := list.links[left].(next := next)];
    if next.To?
    then LeafList(list.head, list.tail, links[next.id := links[next.id].(prev := To(left))])
    else LeafList(list.head, To(left), links)
  }

  function WithoutId(ids: seq<nat>, p: nat): (r: seq<nat>)
    requires p < |ids|
  {
    seq(|ids| - 1, i requires 0 <= i < |ids| - 1 => if i < p then ids[i] else ids[i + 1])
  }

  lemma RemoveAfterOk(list: LeafList, ids: seq<nat>, p: nat)
    requires Chained(list, ids) && p + 1 < |ids|
    ensures LinkedAt(list, ids, p) && LinkedAt(list, ids, p + 1) && (p + 2 < |ids| ==> LinkedAt(list, ids, p + 2))
    ensures Chained(RemoveAfter(list, ids[p], ids[p + 1]), ids[..p + 1] + ids[p + 2..])
  {
    assert LinkedAt(list, ids, p) && LinkedAt(list, ids, p + 1) && (p + 2 < |ids| ==> LinkedAt(list, ids, p + 2));
    var r, ids' := RemoveAfter(list, ids[p], ids[p + 1]), WithoutId(ids, p + 1);
    assert ids[..p + 1] + ids[p + 2..] == ids';
    forall i | 0 <= i < |ids'| ensures LinkedAt(r, ids', i) {
      assert LinkedAt(list, ids, if i <= p then i else i + 1);
    }
  }

  /** A new leaf at the end. */
  function Append(list: LeafList, id: nat): (r: LeafList)
    requires list.tail.To? ==> list.tail.id in list.links
  {
    if list.tail.Null? then LeafList(To(id), To(id), list.links[id := Link(Null, Null)])
    else
      var last := list.tail.id;
      var links := list.links[last := list.links[last].(next := To(id))];
      LeafList(list.head, To(id), links[id := Link(To(last), Null)])
  }

  lemma AppendOk(list: LeafList, ids: seq<nat>, id: nat)
    requires Chained(list, ids) && id !in ids
    ensures list.tail.To? ==> list.tail.id in list.links
    ensures Chained(Append(list, id), ids + [id])
  {
    assert ids != [] ==> LinkedAt(list, ids, |ids| - 1);
    var r, ids' := Append(list, id), ids + [id];
    forall i | 0 <= i < |ids'| ensures LinkedAt(r, ids', i) {
      assert i < |ids| ==> LinkedAt(list, ids, i);
    }
  }
}
