/**
 The order of the entries: byte-wise order of keys is the numeric order of the integers whose
 big-endian encodings they are, and the entries of a well-formed subtree are in that order.
 */
module ArtOrder {
  import opened ArtNodes
  import opened ArtLayout
  import opened ArtSlots
  import opened ArtTree

  /** The keys agree up to some byte, which is smaller in the first. */
  ghost predicate Less(a: Key, b: Key) {
    exists d :: 0 <= d < |a| && d < |b| && a[..d] == b[..d] && a[d] < b[d]
  }

  ghost predicate InOrder(s: seq<Entry>) {
    forall i, j :: 0 <= i < j < |s| ==> Less(s[i].key, s[j].key)
  }

  lemma InOrderAppend(s: seq<Entry>, t: seq<Entry>)
    requires InOrder(s) && InOrder(t)
    requires forall x: Entry, y: Entry :: x in s && y in t ==> Less(x.key, y.key)
    ensures InOrder(s + t)
  {
    hide Less;
  }

  lemma PartWays(p: Key, b: Byte, c: Byte, k: Key, l: Key)
    requires p + [b] <= k && p + [c] <= l && b < c
    ensures Less(k, l)
  {
    assert k[..|p|] == (p + [b])[..|p|] == p && l[..|p|] == (p + [c])[..|p|] == p;
    assert k[|p|] == (p + [b])[|p|] && l[|p|] == (p + [c])[|p|];
  }

  lemma {:induction false} EntriesInOrder(n: Node, path: Key)
    requires WellFormed(n, path)
    ensures InOrder(Entries(n))
    decreases n, 1
  {
    if IsInner(n) {
      RangeInOrder(n, path, 0);
    }
  }

  lemma {:induction false} RangeInOrder(n: Node, path: Key, lo: nat)
    requires IsInner(n) && WellFormed(n, path) && lo <= 256
    ensures InOrder(Range(n, lo, 256))
    decreases n, 0, 256 - lo
  {
    hide Child, Less;
    if lo < 256 {
      var b: Byte := lo;
      RangeInOrder(n, path, lo + 1);
      var c, rest := Child(n, b), Range(n, lo + 1, 256);
      if c != Null {
        SmallerChild(n, b);
        EntriesInOrder(c, path + n.prefix + [b]);
        forall x: Entry, y: Entry | x in Entries(c) && y in rest ensures Less(x.key, y.key) {
          LaterIsGreater(n, path, b, x, y);
        }
        InOrderAppend(Entries(c), rest);
      }
    }
  }

  lemma LaterIsGreater(n: Node, path: Key, b: Byte, x: Entry, y: Entry)
    requires IsInner(n) && WellFormed(n, path) && Child(n, b) != Null
    requires x in Entries(Child(n, b)) && y in Range(n, b + 1, 256)
    ensures Less(x.key, y.key)
  {
    hide Child, Less;
    InRange(n, b + 1, 256, y);
    var c: Byte :| b + 1 <= c && y in Entries(Child(n, c));
    var p := path + n.prefix;
    assert Child(n, c) != Null;
    EntryPath(Child(n, b), p + [b], x);
    EntryPath(Child(n, c), p + [c], y);
    PartWays(p, b, c, x.key, y.key);
  }

  // ---------------------------------------------------------------------------------------
  // Numbers
  // ---------------------------------------------------------------------------------------

  function Power(k: nat): (n: nat)
    ensures n > 0
  {
    if k == 0 then 1 else 256 * Power(k - 1)
  }

  /** The integer whose big-endian encoding is `k`. */
  function Number(k: Key): (n: nat)
    ensures n < Power(|k|)
  {
    if k == [] then 0
    else
      Digit(k[0], Number(k[1..]), Power(|k| - 1));
      k[0] * Power(|k| - 1) + Number(k[1..])
  }

  lemma Digit(b: Byte, rest: nat, p: nat)
    requires rest < p
    ensures 0 <= b * p && b * p + rest < 256 * p
  {
    assert b * p + p == (b + 1) * p;
    assert (b + 1) * p <= 256 * p;
  }

  lemma LargerDigit(x: nat, y: nat, rest: nat, p: nat)
    requires x < y && rest < p
    ensures x * p + rest < y * p
  {
    assert (x + 1) * p <= y * p;
    assert (x + 1) * p == x * p + p;
  }

  /** Byte-wise order of keys of one length is numeric order. */
  lemma {:induction false} LessIsNumeric(a: Key, b: Key)
    requires |a| == |b| && Less(a, b)
    ensures Number(a) < Number(b)
  {
    var d :| 0 <= d < |a| && a[..d] == b[..d] && a[d] < b[d];
    if d == 0 {
      LargerDigit(a[0], b[0], Number(a[1..]), Power(|a| - 1));
    } else {
      assert a[0] == a[..d][0] && b[0] == b[..d][0];
      assert a[1..][..d - 1] == a[..d][1..] && b[1..][..d - 1] == b[..d][1..];
      assert a[1..][d - 1] == a[d] && b[1..][d - 1] == b[d];
      LessIsNumeric(a[1..], b[1..]);
    }
  }

  /** All stored keys, in the order of the entries, ascend as numbers. */
  lemma AscendingNumbers(n: Node, i: nat, j: nat)
    requires WellFormed(n, []) && i < j < |Entries(n)|
    ensures Number(Entries(n)[i].key) < Number(Entries(n)[j].key)
  {
    EntriesInOrder(n, []);
    var s := Entries(n);
    EntryPath(n, [], s[i]);
    EntryPath(n, [], s[j]);
    LessIsNumeric(s[i].key, s[j].key);
  }
}
