/**
 Leaf pages of the optimistic-lock-coupling B+tree as the arrays they are: insertion, erasure, splitting
 and merging shift slots in place and relink the pages. Insertion and erasure compute what the pages as
 values say.
 */
module OlcPage {
  import opened OlcNodes

  class LeafPage {
    const keys: array<int>
    const vals: array<Value>
    var count: nat
    var pre: LeafPage?
    var next: LeafPage?

    ghost predicate Valid()
      reads this, keys, vals
    {
      keys != vals && keys.Length == vals.Length && count <= keys.Length && StrictlySorted(Keys())
    }

    ghost function Keys(): (s: seq<int>)
      requires count <= keys.Length
      reads this, keys
    {
      keys[..count]
    }

    ghost function Vals(): (s: seq<Value>)
      requires count <= vals.Length
      reads this, vals
    {
      vals[..count]
    }

    ghost function Repr(): (r: set<object>) { {this, keys, vals} }

    constructor (capacity: nat)
      ensures Valid() && count == 0 && keys.Length == capacity && fresh(keys) && fresh(vals)
      ensures pre == null && next == null
    {
      keys, vals := new int[capacity], new Value[capacity];
      count, pre, next := 0, null, null;
    }

    /** Opens a gap at `pos` by moving the slots behind it up by one. */
    method ShiftUp(pos: nat)
      requires keys != vals && keys.Length == vals.Length && pos <= count < keys.Length
      modifies keys, vals
      ensures forall j :: 0 <= j < pos ==> keys[j] == old(keys[j]) && vals[j] == old(vals[j])
      ensures forall j :: pos < j <= count ==> keys[j] == old(keys[j - 1]) && vals[j] == old(vals[j - 1])
    {
      var i := count;
      while i > pos
        invariant pos <= i <= count
        invariant forall j :: 0 <= j < i ==> keys[j] == old(keys[j]) && vals[j] == old(vals[j])
        invariant forall j :: i < j <= count ==> keys[j] == old(keys[j - 1]) && vals[j] == old(vals[j - 1])
      {
        keys[i], vals[i] := keys[i - 1], vals[i - 1];
        i := i - 1;
      }
    }

    /** Puts a slot at `pos`. */
    method PutAt(pos: nat, k: int, v: Value)
      requires keys != vals && keys.Length == vals.Length && pos <= count < keys.Length
      modifies this`count, keys, vals
      ensures count == old(count) + 1
      ensures Keys() == InsertAt(old(Keys()), pos, k) && Vals() == InsertAt(old(Vals()), pos, v)
    {
      hide InsertAt;
      ghost var ks, vs := Keys(), Vals();
      ShiftUp(pos);
      keys[pos], vals[pos] := k, v;
      count := count + 1;
      Inserted(ks, pos, k, Keys());
      Inserted(vs, pos, v, Vals());
    }

    /** Puts a new binding in its place; an existing key keeps its value. */
    method Insert(k: int, v: Value) returns (added: bool)
      requires Valid() && count < keys.Length
      modifies this`count, keys, vals
      ensures Valid() && (added <==> k !in old(Keys()))
      ensures added ==> var pos := LowerBound(old(Keys()), k);
                        Keys() == InsertAt(old(Keys()), pos, k) && Vals() == InsertAt(old(Vals()), pos, v)
      ensures !added ==> Keys() == old(Keys()) && Vals() == old(Vals())
    {
      ghost var ks := Keys();
      var pos := SearchPage(keys[..count], k);
      AtPosition(ks, k, pos);
      added := !(pos < count && keys[pos] == k);
      if added {
        InsertAtSorted(ks, pos, k);
        hide StrictlySorted;
        PutAt(pos, k, v);
      }
    }

    /** Closes a gap at `pos` by moving the slots behind it down by one. */
    method ShiftDown(pos: nat)
      requires keys != vals && keys.Length == vals.Length && pos < count <= keys.Length
      modifies keys, vals
      ensures forall j :: 0 <= j < pos ==> keys[j] == old(keys[j]) && vals[j] == old(vals[j])
      ensures forall j :: pos <= j < count - 1 ==> keys[j] == old(keys[j + 1]) && vals[j] == old(vals[j + 1])
    {
      var i := pos;
      while i + 1 < count
        invariant pos <= i < count
        invariant forall j :: 0 <= j < pos ==> keys[j] == old(keys[j]) && vals[j] == old(vals[j])
        invariant forall j :: pos <= j < i ==> keys[j] == old(keys[j + 1]) && vals[j] == old(vals[j + 1])
        invariant forall j :: i <= j < count ==> keys[j] == old(keys[j]) && vals[j] == old(vals[j])
      {
        keys[i], vals[i] := keys[i + 1], vals[i + 1];
        i := i + 1;
      }
    }

    /** Takes the slot at `pos` out. */
    method Erase(pos: nat)
      requires Valid() && pos < count
      modifies this`count, keys, vals
      ensures Valid() && Keys() == RemoveAt(old(Keys()), pos) && Vals() == RemoveAt(old(Vals()), pos)
    {
      CutLowerBound(Keys(), pos, 0);
      hide StrictlySorted, RemoveAt;
      ShiftDown(pos);
      count := count - 1;
      assert Keys() == RemoveAt(old(Keys()), pos);
      assert Vals() == RemoveAt(old(Vals()), pos);
    }

    /** Copies `n` slots of another page from position `from` behind the last slot. */
    method CopyFrom(other: LeafPage, from: nat, n: nat)
      requires keys != vals && keys.Length == vals.Length && count + n <= keys.Length
      requires Repr() !! other.Repr() && other.keys.Length == other.vals.Length && from + n <= other.keys.Length
      modifies this`count, keys, vals
      ensures count == old(count) + n
      ensures keys[..count] == old(keys[..count]) + other.keys[from..from + n]
      ensures vals[..count] == old(vals[..count]) + other.vals[from..from + n]
    {
      var i := 0;
      while i < n
        invariant i <= n && unchanged(`count)
        invariant keys[..count + i] == old(keys[..count]) + other.keys[from..from + i]
        invariant vals[..count + i] == old(vals[..count]) + other.vals[from..from + i]
      {
        keys[count + i], vals[count + i] := other.keys[from + i], other.vals[from + i];
        assert keys[..count + i + 1] == keys[..count + i] + [other.keys[from + i]];
        assert vals[..count + i + 1] == vals[..count + i] + [other.vals[from + i]];
        i := i + 1;
      }
      count := count + n;
    }

    /** The upper half moves to a new page behind this one; the separator is the last key that stays. */
    method Split() returns (right: LeafPage, sep: int)
      requires Valid() && count >= 2
      modifies this`count, this`next
      ensures Valid() && right.Valid() && fresh(right) && fresh(right.keys) && fresh(right.vals)
      ensures Keys() == old(Keys())[..old(count) / 2] && right.Keys() == old(Keys())[old(count) / 2..]
      ensures Vals() == old(Vals())[..old(count) / 2] && right.Vals() == old(Vals())[old(count) / 2..]
      ensures sep == old(Keys())[old(count) / 2 - 1]
      ensures next == right && right.next == old(next) && right.pre == this && pre == old(pre)
    {
      ghost var ks, half := Keys(), count / 2;
      SortedHalves(ks, half);
      hide StrictlySorted;
      var moved := count - count / 2;
      right := new LeafPage(keys.Length);
      right.next, right.pre := next, this;
      right.CopyFrom(this, count - moved, moved);
      assert right.Keys() == ks[half..];
      count := count - moved;
      next := right;
      assert Keys() == ks[..half];
      sep := keys[count - 1];
    }

    /** Takes over the slots and the right neighbour of the right sibling. */
    method Merge(sibling: LeafPage)
      requires Valid() && sibling.Valid() && Repr() !! sibling.Repr() && count + sibling.count <= keys.Length
      requires StrictlySorted(Keys() + sibling.Keys())
      modifies this`count, this`next, keys, vals
      ensures Valid() && Keys() == old(Keys() + sibling.Keys()) && Vals() == old(Vals() + sibling.Vals())
      ensures next == sibling.next && pre == old(pre)
    {
      CopyFrom(sibling, 0, sibling.count);
      next := sibling.next;
      assert Keys() == old(Keys() + sibling.Keys()) && Vals() == old(Vals() + sibling.Vals());
    }
  }

  lemma Inserted(s: seq<int>, pos: nat, x: int, r: seq<int>)
    requires pos <= |s| && |r| == |s| + 1 && r[pos] == x
    requires forall i :: 0 <= i < pos ==> r[i] == s[i]
    requires forall i :: pos < i <= |s| ==> r[i] == s[i - 1]
    ensures r == InsertAt(s, pos, x)
  {
  }

  lemma AtPosition(ks: seq<int>, k: int, pos: nat)
    requires StrictlySorted(ks) && pos == LowerBound(ks, k)
    ensures pos <= |ks| && (k in ks <==> pos < |ks| && ks[pos] == k)
    ensures (pos > 0 ==> ks[pos - 1] < k) && (pos < |ks| ==> k <= ks[pos])
  {
    assert pos < |ks| ==> forall j :: pos < j < |ks| ==> ks[pos] < ks[j];
  }

  lemma SortedHalves(ks: seq<int>, half: nat)
    requires StrictlySorted(ks) && half <= |ks|
    ensures StrictlySorted(ks[..half]) && StrictlySorted(ks[half..])
  {
  }

  /** Inserting in the arrays is inserting in the page as a value. */
  lemma InsertIsLeafPut(n: Node, k: int, v: Value)
    requires n.Leaf? && |n.keys| == |n.vals| && StrictlySorted(n.keys)
    ensures var pos := LowerBound(n.keys, k);
            LeafPut(n, k, v) == if k in n.keys then n
              else n.(keys := InsertAt(n.keys, pos, k), vals := InsertAt(n.vals, pos, v))
  {
    AtPosition(n.keys, k, LowerBound(n.keys, k));
  }

  /** Erasing in the arrays is erasing in the page as a value. */
  lemma EraseIsLeafCut(n: Node, k: int)
    requires n.Leaf? && |n.keys| == |n.vals| && StrictlySorted(n.keys)
    ensures var pos := LowerBound(n.keys, k);
            LeafCut(n, k) == if k in n.keys then n.(keys := RemoveAt(n.keys, pos), vals := RemoveAt(n.vals, pos)) else n
  {
    AtPosition(n.keys, k, LowerBound(n.keys, k));
  }
}
