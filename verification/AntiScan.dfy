/**
 The buffered scan over cache and evict table: both are read in ascending order through buffers of 32
 entries, refilled from the key after the last one on, and merged. After the largest key value that
 key is zero, and a side starts over.
 */
module AntiScan {
  import opened AntiRing
  import opened AntiCache

  const BUFFER: nat := 32

  /** The largest key value; its successor wraps around to zero. */
  const MAX_KEY: Key

  function Next(k: Key): (n: Key) { (k + 1) % (MAX_KEY + 1) }

  predicate Sorted(s: seq<Tuple>) {
    forall i, j :: 0 <= i < j < |s| ==> s[i].key < s[j].key
  }

  predicate KeysUpToMax(s: seq<Tuple>) {
    forall i :: 0 <= i < |s| ==> s[i].key <= MAX_KEY
  }

  /** No full buffer, counting from position `from`, ends with the largest key value. */
  predicate Unwrapped(s: seq<Tuple>, from: nat) {
    from < |s| && (|s| - from) % BUFFER == 0 ==> s[|s| - 1].key < MAX_KEY
  }

  // ---------------------------------------------------------------------------------------
  // The sequence to be delivered
  // ---------------------------------------------------------------------------------------

  function Merge(a: seq<Tuple>, b: seq<Tuple>): (r: seq<Tuple>)
    decreases |a| + |b|
  {
    if a == [] then b
    else if b == [] then a
    else if a[0].key <= b[0].key then [a[0]] + Merge(a[1..], b)
    else [b[0]] + Merge(a, b[1..])
  }

  lemma {:induction false} MergeMembers(a: seq<Tuple>, b: seq<Tuple>, x: Tuple)
    ensures x in Merge(a, b) <==> x in a || x in b
    decreases |a| + |b|
  {
    if a != [] && b != [] {
      assert a == [a[0]] + a[1..] && b == [b[0]] + b[1..];
      if a[0].key <= b[0].key {
        MergeMembers(a[1..], b, x);
      } else {
        MergeMembers(a, b[1..], x);
      }
    }
  }

  /** All keys of `s` are above `k`. */
  predicate Above(s: seq<Tuple>, k: Key) {
    forall i :: 0 <= i < |s| ==> k < s[i].key
  }

  predicate Apart(a: seq<Tuple>, b: seq<Tuple>) {
    forall i, j :: 0 <= i < |a| && 0 <= j < |b| ==> a[i].key != b[j].key
  }

  lemma {:induction false} MergeSorted(a: seq<Tuple>, b: seq<Tuple>)
    requires Sorted(a) && Sorted(b) && Apart(a, b)
    ensures Sorted(Merge(a, b))
    decreases |a| + |b|
  {
    if a != [] && b != [] {
      if a[0].key <= b[0].key {
        MergeSorted(a[1..], b);
        MergeAbove(a[1..], b, a[0].key);
      } else {
        MergeSorted(a, b[1..]);
        MergeAbove(a, b[1..], b[0].key);
      }
    }
  }

  lemma MergeAbove(a: seq<Tuple>, b: seq<Tuple>, k: Key)
    requires Above(a, k) && Above(b, k)
    ensures Above(Merge(a, b), k)
  {
    var m := Merge(a, b);
    forall i | 0 <= i < |m| ensures k < m[i].key {
      MergeMembers(a, b, m[i]);
    }
  }

  // ---------------------------------------------------------------------------------------
  // Reading ahead
  // ---------------------------------------------------------------------------------------

  /** The first position with a key that is not smaller. */
  function LowerBound(s: seq<Tuple>, k: Key): (p: nat)
    ensures p <= |s| && forall i :: 0 <= i < p ==> s[i].key < k
    ensures p < |s| ==> k <= s[p].key
  {
    BoundFrom(s, k, 0)
  }

  function BoundFrom(s: seq<Tuple>, k: Key, lo: nat): (p: nat)
    requires lo <= |s| && forall i :: 0 <= i < lo ==> s[i].key < k
    ensures p <= |s| && forall i :: 0 <= i < p ==> s[i].key < k
    ensures p < |s| ==> k <= s[p].key
    decreases |s| - lo
  {
    if lo < |s| && s[lo].key < k then BoundFrom(s, k, lo + 1) else lo
  }

  /** Reading on from the key after the last one works exactly if there is such a key; else it starts over. */
  lemma BoundAfterIff(s: seq<Tuple>, p: nat)
    requires Sorted(s) && 0 < p <= |s| && KeysUpToMax(s)
    ensures LowerBound(s, Next(s[p - 1].key)) == p <==> s[p - 1].key < MAX_KEY
    ensures s[p - 1].key == MAX_KEY ==> LowerBound(s, Next(s[p - 1].key)) == 0
  {
    var k := s[p - 1].key;
    NextIs(k);
    hide Next;
    if k < MAX_KEY {
      var q := LowerBound(s, k + 1);
      assert forall i :: 0 <= i < p ==> s[i].key <= k;
      assert p < |s| ==> k < s[p].key;
    }
  }

  lemma NextIs(k: Key)
    requires k <= MAX_KEY
    ensures Next(k) == if k < MAX_KEY then k + 1 else 0
  {
  }

  /** Up to a buffer full of entries from a key on, and whether the end was reached. */
  method Fill(s: seq<Tuple>, start: Key) returns (buf: seq<Tuple>, end: bool)
    ensures var p := LowerBound(s, start);
            && p + |buf| <= |s| && buf == s[p..p + |buf|] && |buf| <= BUFFER
            && (end <==> |buf| < BUFFER) && (end ==> p + |buf| == |s|)
  {
    var p := LowerBound(s, start);
    buf := [];
    while p + |buf| < |s| && |buf| < BUFFER
      invariant |buf| <= BUFFER && p + |buf| <= |s| && buf == s[p..p + |buf|]
      decreases |s| - |buf|
    {
      buf := buf + [s[p + |buf|]];
    }
    end := |buf| < BUFFER;
  }

  /** A buffer, the position in it, and whether nothing is left behind it. */
  datatype Reader = Reader(buf: seq<Tuple>, idx: nat, end: bool)

  /** A reader on `s`: entries from `at` on are still to be delivered, those in the buffer first. */
  predicate Reads(s: seq<Tuple>, r: Reader, at: nat) {
    && r.idx <= |r.buf| <= BUFFER && at + (|r.buf| - r.idx) <= |s|
    && r.buf[r.idx..] == s[at..at + (|r.buf| - r.idx)]
    && (r.end ==> at + (|r.buf| - r.idx) == |s|) && (!r.end ==> |r.buf| == BUFFER)
    && (r.idx > 0 ==> at > 0 && r.buf[r.idx - 1] == s[at - 1])
  }

  predicate Empty(r: Reader) { r.idx >= |r.buf| }

  /** How much has not been buffered yet, counting the discovery of the end. */
  function Ahead(s: seq<Tuple>, r: Reader, at: nat): (n: int) {
    |s| - (at + |r.buf| - r.idx) + if r.end then 0 else 1
  }

  /** As long as there may be more, the buffer ends a whole number of buffers behind `from`. */
  predicate Aligned(r: Reader, at: nat, from: nat) {
    !r.end ==> r.idx <= |r.buf| && from < at + (|r.buf| - r.idx) && (at + (|r.buf| - r.idx) - from) % BUFFER == 0
  }

  /** A step within the buffers moves neither their ends nor what is known of them. */
  predicate SameEnd(r: Reader, at: nat, r': Reader, at': nat) {
    r'.end == r.end && at' + |r'.buf| - r'.idx == at + |r.buf| - r.idx
  }

  lemma ReadsBounds(s: seq<Tuple>, r: Reader, at: nat)
    requires Reads(s, r, at)
    ensures at <= |s| && r.idx <= |r.buf| && Ahead(s, r, at) >= 0
    ensures Empty(r) && r.end ==> s[at..] == []
  {
  }

  lemma Consume(s: seq<Tuple>, r: Reader, at: nat)
    requires Reads(s, r, at) && !Empty(r)
    ensures at < |s| && r.buf[r.idx] == s[at] && Reads(s, r.(idx := r.idx + 1), at + 1)
            && s[at..] == [s[at]] + s[at + 1..]
  {
    assert r.buf[r.idx] == r.buf[r.idx..][0];
    assert r.buf[r.idx + 1..] == r.buf[r.idx..][1..];
  }

  /** A reader is to be refilled. */
  predicate Exhausted(r: Reader) { Empty(r) && !r.end }

  /** The end was found in a buffer that was not full, so reading from `from` on comes to it without wrapping. */
  predicate EndSeen(s: seq<Tuple>, r: Reader, from: nat) {
    r.end ==> Unwrapped(s, from)
  }

  /** A reader on `s`, with all that is known of where its buffers end. */
  predicate Tracks(s: seq<Tuple>, r: Reader, at: nat, from: nat) {
    Reads(s, r, at) && Aligned(r, at, from) && EndSeen(s, r, from)
  }

  /** The next refill starts over: the reader has delivered the largest key value at the end of a full buffer. */
  predicate WrapsAt(s: seq<Tuple>, r: Reader, at: nat) {
    Exhausted(r) && 0 < at <= |s| && s[at - 1].key == MAX_KEY
  }

  /**
   An empty reader that has not reached the end reads on behind the last key it delivered, from the
   start if that is the largest key value.
   */
  method Refill(s: seq<Tuple>, r: Reader, ghost at: nat, ghost from: nat)
    returns (r': Reader, ghost at': nat, ghost from': nat)
    requires Sorted(s) && KeysUpToMax(s) && Tracks(s, r, at, from)
    ensures Tracks(s, r', at', from') && (Empty(r') ==> r'.end)
    ensures if WrapsAt(s, r, at) then at == |s| && at' == 0 && from' == 0 && !r'.end else at' == at && from' == from
    ensures if !Exhausted(r) then r' == r else WrapsAt(s, r, at) || Ahead(s, r', at') < Ahead(s, r, at)
  {
    r', at', from' := r, at, from;
    if r.idx >= |r.buf| && !r.end {
      BoundAfterIff(s, at);
      hide LowerBound, Next;
      var buf, end := Fill(s, Next(r.buf[r.idx - 1].key));
      r' := Reader(buf, 0, end);
      if s[at - 1].key == MAX_KEY {
        at', from' := 0, 0;
      }
      RefillTracks(s, r, at, from, buf, end);
    }
  }

  lemma RefillTracks(s: seq<Tuple>, r: Reader, at: nat, from: nat, buf: seq<Tuple>, end: bool)
    requires Sorted(s) && KeysUpToMax(s) && Tracks(s, r, at, from) && Exhausted(r)
    requires var p := if s[at - 1].key == MAX_KEY then 0 else at;
             && p + |buf| <= |s| && buf == s[p..p + |buf|] && |buf| <= BUFFER
             && (end <==> |buf| < BUFFER) && (end ==> p + |buf| == |s|)
    ensures if s[at - 1].key == MAX_KEY then at == |s| && !end && Tracks(s, Reader(buf, 0, end), 0, 0)
            else Tracks(s, Reader(buf, 0, end), at, from)
  {
    assert at < |s| ==> s[at - 1].key < s[at].key;
    if s[at - 1].key == MAX_KEY {
      FreshReader(s, buf, end, 0);
    } else {
      assert buf[0..] == buf;
      assert at + |buf| - from == at - from + |buf|;
    }
  }

  // ---------------------------------------------------------------------------------------
  // The scan
  // ---------------------------------------------------------------------------------------

  /** No call so far asked to stop. */
  predicate GoingOn(calls: seq<Tuple>, stop: seq<Tuple> -> bool) {
    forall i :: 0 < i <= |calls| ==> !stop(calls[..i])
  }

  /** The calls made are a prefix of `all`, up to the first call that asks to stop or to the end. */
  predicate Delivered(calls: seq<Tuple>, all: seq<Tuple>, stop: seq<Tuple> -> bool) {
    && calls <= all && (calls != all ==> calls != [] && stop(calls))
    && forall i :: 0 < i < |calls| ==> !stop(calls[..i])
  }

  /** What has been delivered and what is left make up `all`. */
  predicate Midway(calls: seq<Tuple>, all: seq<Tuple>, a: seq<Tuple>, b: seq<Tuple>, stop: seq<Tuple> -> bool) {
    all == calls + Merge(a, b) && GoingOn(calls, stop)
  }

  lemma Call(calls: seq<Tuple>, all: seq<Tuple>, a: seq<Tuple>, b: seq<Tuple>, x: Tuple, a': seq<Tuple>, b': seq<Tuple>,
             stop: seq<Tuple> -> bool)
    requires Midway(calls, all, a, b, stop) && Merge(a, b) == [x] + Merge(a', b')
    ensures stop(calls + [x]) ==> Delivered(calls + [x], all, stop)
    ensures !stop(calls + [x]) ==> Midway(calls + [x], all, a', b', stop)
  {
    var c := calls + [x];
    assert all == c + Merge(a', b');
    forall i | 0 < i < |c| ensures c[..i] == calls[..i] && !stop(c[..i]) {
      assert c[..i] == calls[..i];
    }
    assert c[..|c|] == c;
  }

  lemma Start(a: seq<Tuple>, b: seq<Tuple>, stop: seq<Tuple> -> bool)
    ensures Midway([], Merge(a, b), a, b, stop)
  {
  }

  lemma Finish(calls: seq<Tuple>, all: seq<Tuple>, stop: seq<Tuple> -> bool)
    requires Midway(calls, all, [], [], stop)
    ensures Delivered(calls, all, stop)
  {
    assert all == calls;
  }

  lemma EndKept(s: seq<Tuple>, r: Reader, at: nat, r': Reader, at': nat, from: nat)
    requires SameEnd(r, at, r', at') && Tracks(s, r, at, from) && Reads(s, r', at')
    ensures Tracks(s, r', at', from) && Ahead(s, r', at') == Ahead(s, r, at)
  {
  }

  lemma FreshReader(s: seq<Tuple>, buf: seq<Tuple>, end: bool, at: nat)
    requires at + |buf| <= |s| && buf == s[at..at + |buf|] && |buf| <= BUFFER
    requires (end <==> |buf| < BUFFER) && (end ==> at + |buf| == |s|)
    ensures Tracks(s, Reader(buf, 0, end), at, at)
  {
    assert buf[0..] == buf;
  }

  /** The state between two calls. */
  ghost predicate Between(hot: seq<Tuple>, h: Reader, ha: nat, cold: seq<Tuple>, c: Reader, ca: nat,
                          calls: seq<Tuple>, all: seq<Tuple>, stop: seq<Tuple> -> bool) {
    && Reads(hot, h, ha) && Reads(cold, c, ca) && ha <= |hot| && ca <= |cold|
    && Midway(calls, all, hot[ha..], cold[ca..], stop)
  }

  /** The next entry of the hot side goes out. */
  lemma TakeHot(hot: seq<Tuple>, h: Reader, ha: nat, cold: seq<Tuple>, c: Reader, ca: nat,
                calls: seq<Tuple>, all: seq<Tuple>, stop: seq<Tuple> -> bool)
    requires Between(hot, h, ha, cold, c, ca, calls, all, stop) && !Empty(h)
    requires cold[ca..] == [] || h.buf[h.idx].key <= cold[ca].key
    ensures var calls' := calls + [h.buf[h.idx]];
            if stop(calls') then Delivered(calls', all, stop)
            else Between(hot, h.(idx := h.idx + 1), ha + 1, cold, c, ca, calls', all, stop)
  {
    Consume(hot, h, ha);
    if cold[ca..] == [] {
    }
    Call(calls, all, hot[ha..], cold[ca..], h.buf[h.idx], hot[ha + 1..], cold[ca..], stop);
  }

  lemma TakeCold(hot: seq<Tuple>, h: Reader, ha: nat, cold: seq<Tuple>, c: Reader, ca: nat,
                 calls: seq<Tuple>, all: seq<Tuple>, stop: seq<Tuple> -> bool)
    requires Between(hot, h, ha, cold, c, ca, calls, all, stop) && !Empty(c)
    requires hot[ha..] == [] || c.buf[c.idx].key < hot[ha].key
    ensures var calls' := calls + [c.buf[c.idx]];
            if stop(calls') then Delivered(calls', all, stop)
            else Between(hot, h, ha, cold, c.(idx := c.idx + 1), ca + 1, calls', all, stop)
  {
    Consume(cold, c, ca);
    if hot[ha..] == [] {
    }
    Call(calls, all, hot[ha..], cold[ca..], c.buf[c.idx], hot[ha..], cold[ca + 1..], stop);
  }

  /** Delivers from both buffers in key order until one is empty. */
  method MergeBuffers(ghost hot: seq<Tuple>, h0: Reader, ghost ha0: nat, ghost cold: seq<Tuple>, c0: Reader,
                      ghost ca0: nat,
                      calls0: seq<Tuple>, ghost all: seq<Tuple>, stop: seq<Tuple> -> bool)
    returns (h: Reader, ghost ha: nat, c: Reader, ghost ca: nat, calls: seq<Tuple>, stopped: bool)
    requires Between(hot, h0, ha0, cold, c0, ca0, calls0, all, stop)
    ensures stopped ==> Delivered(calls, all, stop) && calls != [] && stop(calls)
    ensures !stopped ==> Between(hot, h, ha, cold, c, ca, calls, all, stop) && (Empty(h) || Empty(c))
    ensures !stopped ==> SameEnd(h0, ha0, h, ha) && SameEnd(c0, ca0, c, ca) && ha0 <= ha && ca0 <= ca
  {
    hide Reads, Delivered, Midway;
    h, ha, c, ca, calls, stopped := h0, ha0, c0, ca0, calls0, false;
    while h.idx < |h.buf| && c.idx < |c.buf|
      invariant Between(hot, h, ha, cold, c, ca, calls, all, stop)
      invariant SameEnd(h0, ha0, h, ha) && SameEnd(c0, ca0, c, ca) && ha0 <= ha && ca0 <= ca
      decreases |h.buf| - h.idx + |c.buf| - c.idx
    {
      Consume(hot, h, ha);
      Consume(cold, c, ca);
      if h.buf[h.idx].key <= c.buf[c.idx].key {
        TakeHot(hot, h, ha, cold, c, ca, calls, all, stop);
        calls, h, ha := calls + [h.buf[h.idx]], h.(idx := h.idx + 1), ha + 1;
      } else {
        TakeCold(hot, h, ha, cold, c, ca, calls, all, stop);
        calls, c, ca := calls + [c.buf[c.idx]], c.(idx := c.idx + 1), ca + 1;
      }
      if stop(calls) {
        stopped := true;
        return;
      }
    }
  }

  /** Delivers the rest of the hot buffer when the cold side has come to its end. */
  method DrainHot(ghost hot: seq<Tuple>, h0: Reader, ghost ha0: nat, ghost cold: seq<Tuple>, c: Reader, ghost ca: nat,
                  calls0: seq<Tuple>, ghost all: seq<Tuple>, stop: seq<Tuple> -> bool)
    returns (h: Reader, ghost ha: nat, calls: seq<Tuple>, stopped: bool)
    requires Between(hot, h0, ha0, cold, c, ca, calls0, all, stop)
    ensures stopped ==> Delivered(calls, all, stop) && calls != [] && stop(calls)
    ensures !stopped ==> Between(hot, h, ha, cold, c, ca, calls, all, stop) && SameEnd(h0, ha0, h, ha) && ha0 <= ha
    ensures !stopped ==> if !Empty(h0) && Empty(c) && c.end then Empty(h) else h == h0
  {
    hide Reads, Delivered, Midway;
    h, ha, calls, stopped := h0, ha0, calls0, false;
    if h.idx < |h.buf| && c.idx >= |c.buf| && c.end {
      ReadsBounds(cold, c, ca);
      while h.idx < |h.buf|
        invariant Between(hot, h, ha, cold, c, ca, calls, all, stop) && SameEnd(h0, ha0, h, ha) && ha0 <= ha
        decreases |h.buf| - h.idx
      {
        TakeHot(hot, h, ha, cold, c, ca, calls, all, stop);
        calls, h, ha := calls + [h.buf[h.idx]], h.(idx := h.idx + 1), ha + 1;
        if stop(calls) {
          stopped := true;
          return;
        }
      }
    }
  }

  method DrainCold(ghost hot: seq<Tuple>, h: Reader, ghost ha: nat, ghost cold: seq<Tuple>, c0: Reader, ghost ca0: nat,
                   calls0: seq<Tuple>, ghost all: seq<Tuple>, stop: seq<Tuple> -> bool)
    returns (c: Reader, ghost ca: nat, calls: seq<Tuple>, stopped: bool)
    requires Between(hot, h, ha, cold, c0, ca0, calls0, all, stop)
    ensures stopped ==> Delivered(calls, all, stop) && calls != [] && stop(calls)
    ensures !stopped ==> Between(hot, h, ha, cold, c, ca, calls, all, stop) && SameEnd(c0, ca0, c, ca) && ca0 <= ca
    ensures !stopped ==> if !Empty(c0) && Empty(h) && h.end then Empty(c) else c == c0
  {
    hide Reads, Delivered, Midway;
    c, ca, calls, stopped := c0, ca0, calls0, false;
    if c.idx < |c.buf| && h.idx >= |h.buf| && h.end {
      ReadsBounds(hot, h, ha);
      while c.idx < |c.buf|
        invariant Between(hot, h, ha, cold, c, ca, calls, all, stop) && SameEnd(c0, ca0, c, ca) && ca0 <= ca
        decreases |c.buf| - c.idx
      {
        TakeCold(hot, h, ha, cold, c, ca, calls, all, stop);
        calls, c, ca := calls + [c.buf[c.idx]], c.(idx := c.idx + 1), ca + 1;
        if stop(calls) {
          stopped := true;
          return;
        }
      }
    }
  }

  // ---------------------------------------------------------------------------------------
  // Passes after the first
  // ---------------------------------------------------------------------------------------

  /** Everything from the start key on, in key order. */
  function FromStart(hot: seq<Tuple>, cold: seq<Tuple>, start: Key): (all: seq<Tuple>) {
    Merge(hot[LowerBound(hot, start)..], cold[LowerBound(cold, start)..])
  }

  /** The side that the scan starts over with after it has delivered everything, if there is one. */
  function Again(hot: seq<Tuple>, cold: seq<Tuple>, start: Key): (w: seq<Tuple>) {
    if !Unwrapped(hot, LowerBound(hot, start)) then hot
    else if !Unwrapped(cold, LowerBound(cold, start)) then cold
    else []
  }

  ghost function Repeat(w: seq<Tuple>, n: nat): (r: seq<Tuple>) {
    if n == 0 then [] else Repeat(w, n - 1) + w
  }

  /** The processor refuses to go on somewhere within `s`. */
  ghost predicate Refuses(s: seq<Tuple>, stop: seq<Tuple> -> bool) {
    exists i :: 0 < i <= |s| && stop(s[..i])
  }

  /** Starting over comes to an end: the second pass ends in the middle of a buffer, or the processor refuses. */
  ghost predicate Ends(hot: seq<Tuple>, cold: seq<Tuple>, start: Key, stop: seq<Tuple> -> bool) {
    var w := Again(hot, cold, start);
    || w == [] || |w| % BUFFER != 0
    || exists n :: Refuses(FromStart(hot, cold, start) + Repeat(w, n), stop)
  }

  /** Nobody refused anything that has been delivered. */
  lemma NotYet(calls: seq<Tuple>, stop: seq<Tuple> -> bool)
    requires GoingOn(calls, stop)
    ensures !Refuses(calls, stop)
  {
  }

  /** The largest key value comes last. */
  lemma MaxIsLast(all: seq<Tuple>, calls: seq<Tuple>, rest: seq<Tuple>, x: Tuple)
    requires Sorted(all) && KeysUpToMax(all) && all == calls + rest && x in calls && x.key == MAX_KEY
    ensures rest == []
  {
    var i :| 0 <= i < |calls| && calls[i] == x;
    assert all[i] == x;
    if rest != [] {
      BelowMax(all, i, |calls|);
    }
  }

  lemma BelowMax(all: seq<Tuple>, i: nat, j: nat)
    requires Sorted(all) && KeysUpToMax(all) && i < j < |all|
    ensures all[i].key < MAX_KEY
  {
    assert all[j].key <= MAX_KEY;
  }

  /** When one side has delivered the largest key value in the first pass, the other has delivered everything. */
  lemma OtherDone(a: seq<Tuple>, b: seq<Tuple>, af: nat, bf: nat, ba: nat, all: seq<Tuple>, calls: seq<Tuple>)
    requires Sorted(a) && Sorted(b) && Apart(a, b) && KeysUpToMax(a) && KeysUpToMax(b)
    requires af < |a| && a[|a| - 1].key == MAX_KEY && bf <= |b| && ba <= |b|
    requires Sorted(all) && forall x :: x in all <==> x in a[af..] || x in b[bf..]
    requires all == calls + b[ba..]
    ensures b[ba..] == []
  {
    var x := a[|a| - 1];
    assert a[af..][|a| - 1 - af] == x;
    assert x in all;
    assert x !in b[ba..] by {
      assert forall y :: y in b[ba..] ==> y in b;
    }
    assert KeysUpToMax(all) by {
      forall y | y in all ensures y.key <= MAX_KEY {
        assert y in a || y in b;
      }
    }
    MaxIsLast(all, calls, b[ba..], x);
  }

  // What the loop knows besides the position: `done` passes after the first are behind it or under way.
  ghost predicate Passes(hot: seq<Tuple>, ha: nat, hf: nat, cold: seq<Tuple>, ca: nat, cf: nat, start: Key,
                         done: nat, limit: nat, stop: seq<Tuple> -> bool) {
    var h0, c0, w := LowerBound(hot, start), LowerBound(cold, start), Again(hot, cold, start);
    && done <= limit
    && (Apart(hot, cold) || w == [])
    && (if w == [] then limit == 0
        else if |w| % BUFFER != 0 then limit == 1
        else Refuses(FromStart(hot, cold, start) + Repeat(w, limit), stop))
    && (if done > 0 && !Unwrapped(hot, h0) then hf == 0 && ca == |cold| else hf == h0)
    && (if done > 0 && Unwrapped(hot, h0) then cf == 0 && ha == |hot| else cf == c0)
  }

  /** All of it, with the passes after the first. */
  ghost function Output(hot: seq<Tuple>, cold: seq<Tuple>, start: Key, n: nat): (s: seq<Tuple>) {
    FromStart(hot, cold, start) + Repeat(Again(hot, cold, start), n)
  }

  lemma FromStartMembers(hot: seq<Tuple>, cold: seq<Tuple>, start: Key)
    requires Sorted(hot) && Sorted(cold) && Apart(hot, cold)
    ensures Sorted(FromStart(hot, cold, start))
    ensures forall x :: x in FromStart(hot, cold, start) <==>
              x in hot[LowerBound(hot, start)..] || x in cold[LowerBound(cold, start)..]
  {
    hide LowerBound, Merge;
    var a, b := hot[LowerBound(hot, start)..], cold[LowerBound(cold, start)..];
    MergeSorted(a, b);
    forall x ensures x in Merge(a, b) <==> x in a || x in b {
      MergeMembers(a, b, x);
    }
  }

  lemma FirstPass(hot: seq<Tuple>, cold: seq<Tuple>, start: Key)
    ensures Output(hot, cold, start, 0) == FromStart(hot, cold, start)
  {
    hide FromStart, Again;
  }

  lemma MergeNone(a: seq<Tuple>)
    ensures Merge(a, []) == a && Merge([], a) == a
  {
  }

  /** Another pass is allowed: the one under way ends in a full buffer, and nothing has been refused yet. */
  lemma MayGoOn(hot: seq<Tuple>, ha: nat, hf: nat, cold: seq<Tuple>, ca: nat, cf: nat, start: Key,
                done: nat, limit: nat, calls: seq<Tuple>, stop: seq<Tuple> -> bool)
    requires Passes(hot, ha, hf, cold, ca, cf, start, done, limit, stop)
    requires calls == Output(hot, cold, start, done) && GoingOn(calls, stop)
    requires var w := Again(hot, cold, start);
             w != [] && (done > 0 ==> |w| % BUFFER == 0)
    ensures done < limit
  {
    hide LowerBound, Merge, FromStart, Again;
    NotYet(calls, stop);
  }

  /** The hot side is about to start over: everything has been delivered, and another pass is allowed. */
  lemma HotWraps(hot: seq<Tuple>, h: Reader, ha: nat, hf: nat, cold: seq<Tuple>, ca: nat, cf: nat, start: Key,
                 done: nat, limit: nat, calls: seq<Tuple>, stop: seq<Tuple> -> bool)
    requires Sorted(hot) && Sorted(cold) && KeysUpToMax(hot) && KeysUpToMax(cold)
    requires Tracks(hot, h, ha, hf) && WrapsAt(hot, h, ha) && ha == |hot| && ca <= |cold|
    requires Midway(calls, Output(hot, cold, start, done), hot[ha..], cold[ca..], stop)
    requires Passes(hot, ha, hf, cold, ca, cf, start, done, limit, stop)
    ensures Again(hot, cold, start) == hot && !Unwrapped(hot, LowerBound(hot, start)) && ca == |cold| && done < limit
    ensures Apart(hot, cold) && calls == Output(hot, cold, start, done) && GoingOn(calls, stop)
  {
    var h0 := LowerBound(hot, start);
    hide LowerBound, Merge, FromStart;
    assert !Unwrapped(hot, hf);
    MergeNone(cold[ca..]);
    assert hot[ha..] == [];
    hide Unwrapped;
    if done == 0 {
      FromStartMembers(hot, cold, start);
      FirstPass(hot, cold, start);
      OtherDone(hot, cold, h0, cf, ca, FromStart(hot, cold, start), calls);
    }
    hide Sorted, KeysUpToMax, Apart;
    assert cold[ca..] == [];
    MayGoOn(hot, ha, hf, cold, ca, cf, start, done, limit, calls, stop);
  }

  lemma ColdWraps(hot: seq<Tuple>, ha: nat, hf: nat, cold: seq<Tuple>, c: Reader, ca: nat, cf: nat, start: Key,
                  done: nat, limit: nat, calls: seq<Tuple>, stop: seq<Tuple> -> bool)
    requires Sorted(hot) && Sorted(cold) && KeysUpToMax(hot) && KeysUpToMax(cold)
    requires Tracks(cold, c, ca, cf) && WrapsAt(cold, c, ca) && ca == |cold| && ha <= |hot|
    requires Midway(calls, Output(hot, cold, start, done), hot[ha..], cold[ca..], stop)
    requires Passes(hot, ha, hf, cold, ca, cf, start, done, limit, stop)
    ensures Again(hot, cold, start) == cold && Unwrapped(hot, LowerBound(hot, start)) && ha == |hot| && done < limit
    ensures Apart(hot, cold) && calls == Output(hot, cold, start, done) && GoingOn(calls, stop)
  {
    var c0 := LowerBound(cold, start);
    hide LowerBound;
    assert !Unwrapped(cold, cf);
    if Apart(hot, cold) {
      OneWraps(hot, cold, start);
    }
    hide Unwrapped;
    hide Merge, FromStart;
    MergeNone(hot[ha..]);
    assert cold[ca..] == [];
    if done == 0 {
      FromStartMembers(hot, cold, start);
      FirstPass(hot, cold, start);
      OtherDone(cold, hot, c0, hf, ha, FromStart(hot, cold, start), calls);
    }
    hide Sorted, KeysUpToMax, Apart;
    assert hot[ha..] == [];
    MayGoOn(hot, ha, hf, cold, ca, cf, start, done, limit, calls, stop);
  }

  /** Only one side has the largest key value. */
  lemma OneWraps(hot: seq<Tuple>, cold: seq<Tuple>, start: Key)
    requires Apart(hot, cold) && KeysUpToMax(hot) && KeysUpToMax(cold)
    ensures Unwrapped(hot, LowerBound(hot, start)) || Unwrapped(cold, LowerBound(cold, start))
  {
    hide LowerBound;
  }

  /** One more pass is part of what is to be delivered. */
  lemma OnePassMore(hot: seq<Tuple>, cold: seq<Tuple>, start: Key, done: nat, calls: seq<Tuple>,
                    stop: seq<Tuple> -> bool)
    requires calls == Output(hot, cold, start, done) && GoingOn(calls, stop)
    ensures var w := Again(hot, cold, start);
            && Midway(calls, Output(hot, cold, start, done + 1), w, [], stop)
            && Midway(calls, Output(hot, cold, start, done + 1), [], w, stop)
  {
    MergeNone(Again(hot, cold, start));
    hide FromStart, Again, Merge;
  }

  // ---------------------------------------------------------------------------------------
  // The loop
  // ---------------------------------------------------------------------------------------

  /** All that holds at the head of the loop. */
  ghost predicate Looping(hot: seq<Tuple>, h: Reader, ha: nat, hf: nat, cold: seq<Tuple>, c: Reader, ca: nat, cf: nat,
                          start: Key, done: nat, limit: nat, calls: seq<Tuple>, stop: seq<Tuple> -> bool) {
    && Sorted(hot) && Sorted(cold) && KeysUpToMax(hot) && KeysUpToMax(cold)
    && Between(hot, h, ha, cold, c, ca, calls, Output(hot, cold, start, done), stop)
    && Tracks(hot, h, ha, hf) && Tracks(cold, c, ca, cf)
    && Passes(hot, ha, hf, cold, ca, cf, start, done, limit, stop)
  }

  /** Refilling the hot side, with a new pass where it starts over. */
  method RefillHot(hot: seq<Tuple>, h: Reader, ghost ha: nat, ghost hf: nat, ghost cold: seq<Tuple>, ghost c: Reader,
                   ghost ca: nat, ghost cf: nat, ghost start: Key, ghost done: nat, ghost limit: nat,
                   ghost calls: seq<Tuple>, ghost stop: seq<Tuple> -> bool)
    returns (h': Reader, ghost ha': nat, ghost hf': nat, ghost done': nat)
    requires Looping(hot, h, ha, hf, cold, c, ca, cf, start, done, limit, calls, stop)
    ensures Looping(hot, h', ha', hf', cold, c, ca, cf, start, done', limit, calls, stop)
    ensures Empty(h') ==> h'.end
    ensures if !Exhausted(h) then h' == h && ha' == ha && done' == done
            else done' > done || (done' == done && Ahead(hot, h', ha') < Ahead(hot, h, ha))
  {
    hide LowerBound, Merge, Ahead, Midway, Reads, Aligned, EndSeen, Output;
    h', ha', hf' := Refill(hot, h, ha, hf);
    done' := done;
    ReadsBounds(hot, h', ha');
    if WrapsAt(hot, h, ha) {
      HotWraps(hot, h, ha, hf, cold, ca, cf, start, done, limit, calls, stop);
      HotAgain(hot, ha, hf, cold, ca, cf, start, done, limit, calls, stop);
      done' := done + 1;
    }
  }

  lemma HotAgain(hot: seq<Tuple>, ha: nat, hf: nat, cold: seq<Tuple>, ca: nat, cf: nat, start: Key,
                 done: nat, limit: nat, calls: seq<Tuple>, stop: seq<Tuple> -> bool)
    requires Again(hot, cold, start) == hot && !Unwrapped(hot, LowerBound(hot, start))
    requires ca == |cold| && done < limit
    requires Passes(hot, ha, hf, cold, ca, cf, start, done, limit, stop)
    requires calls == Output(hot, cold, start, done) && GoingOn(calls, stop)
    ensures Midway(calls, Output(hot, cold, start, done + 1), hot[0..], cold[ca..], stop)
    ensures Passes(hot, 0, 0, cold, ca, cf, start, done + 1, limit, stop)
  {
    OnePassMore(hot, cold, start, done, calls, stop);
    hide LowerBound, Merge, FromStart, Midway, Output;
    assert hot[0..] == hot && cold[ca..] == [];
  }

  method RefillCold(ghost hot: seq<Tuple>, ghost h: Reader, ghost ha: nat, ghost hf: nat, cold: seq<Tuple>, c: Reader,
                    ghost ca: nat, ghost cf: nat, ghost start: Key, ghost done: nat, ghost limit: nat,
                    ghost calls: seq<Tuple>, ghost stop: seq<Tuple> -> bool)
    returns (c': Reader, ghost ca': nat, ghost cf': nat, ghost done': nat)
    requires Looping(hot, h, ha, hf, cold, c, ca, cf, start, done, limit, calls, stop)
    ensures Looping(hot, h, ha, hf, cold, c', ca', cf', start, done', limit, calls, stop)
    ensures Empty(c') ==> c'.end
    ensures if !Exhausted(c) then c' == c && ca' == ca && done' == done
            else done' > done || (done' == done && Ahead(cold, c', ca') < Ahead(cold, c, ca))
  {
    hide LowerBound, Merge, Ahead, Midway, Reads, Aligned, EndSeen, Output;
    c', ca', cf' := Refill(cold, c, ca, cf);
    done' := done;
    ReadsBounds(cold, c', ca');
    if WrapsAt(cold, c, ca) {
      ColdWraps(hot, ha, hf, cold, c, ca, cf, start, done, limit, calls, stop);
      ColdAgain(hot, ha, hf, cold, ca, cf, start, done, limit, calls, stop);
      done' := done + 1;
    }
  }

  lemma ColdAgain(hot: seq<Tuple>, ha: nat, hf: nat, cold: seq<Tuple>, ca: nat, cf: nat, start: Key,
                  done: nat, limit: nat, calls: seq<Tuple>, stop: seq<Tuple> -> bool)
    requires Again(hot, cold, start) == cold && Unwrapped(hot, LowerBound(hot, start))
    requires ha == |hot| && done < limit
    requires Passes(hot, ha, hf, cold, ca, cf, start, done, limit, stop)
    requires calls == Output(hot, cold, start, done) && GoingOn(calls, stop)
    ensures Midway(calls, Output(hot, cold, start, done + 1), hot[ha..], cold[0..], stop)
    ensures Passes(hot, ha, hf, cold, 0, 0, start, done + 1, limit, stop)
  {
    OnePassMore(hot, cold, start, done, calls, stop);
    hide LowerBound, Merge, FromStart, Midway, Output;
    assert cold[0..] == cold && hot[ha..] == [];
  }

  /** Both sides are at their ends: this is after one pass more, if a side starts over at all. */
  lemma Ended(hot: seq<Tuple>, h: Reader, ha: nat, hf: nat, cold: seq<Tuple>, c: Reader, ca: nat, cf: nat,
              start: Key, done: nat, limit: nat, calls: seq<Tuple>, stop: seq<Tuple> -> bool)
    requires Looping(hot, h, ha, hf, cold, c, ca, cf, start, done, limit, calls, stop)
    requires Empty(h) && h.end && Empty(c) && c.end
    ensures Delivered(calls, Output(hot, cold, start, done), stop)
    ensures done == if Again(hot, cold, start) == [] then 0 else 1
  {
    ReadsBounds(hot, h, ha);
    ReadsBounds(cold, c, ca);
    hide LowerBound, Merge, Reads, Aligned, Delivered, Output, Passes, Unwrapped, Again, Midway;
    Finish(calls, Output(hot, cold, start, done), stop);
    PassCount(hot, ha, hf, cold, ca, cf, start, done, limit, stop);
  }

  lemma PassCount(hot: seq<Tuple>, ha: nat, hf: nat, cold: seq<Tuple>, ca: nat, cf: nat, start: Key,
                  done: nat, limit: nat, stop: seq<Tuple> -> bool)
    requires Passes(hot, ha, hf, cold, ca, cf, start, done, limit, stop) && Unwrapped(hot, hf) && Unwrapped(cold, cf)
    ensures done == if Again(hot, cold, start) == [] then 0 else 1
  {
    hide LowerBound, FromStart, Refuses;
  }

  /** How many passes after the first are allowed. */
  lemma Limit(hot: seq<Tuple>, cold: seq<Tuple>, start: Key, stop: seq<Tuple> -> bool) returns (limit: nat)
    requires Ends(hot, cold, start, stop) && (Apart(hot, cold) || Again(hot, cold, start) == [])
    ensures var h0, c0 := LowerBound(hot, start), LowerBound(cold, start);
            Passes(hot, h0, h0, cold, c0, c0, start, 0, limit, stop)
  {
    hide LowerBound, FromStart, Refuses;
    var w := Again(hot, cold, start);
    if w == [] {
      limit := 0;
    } else if |w| % BUFFER != 0 {
      limit := 1;
    } else {
      limit :| Refuses(FromStart(hot, cold, start) + Repeat(w, limit), stop);
    }
  }

  /** Moving on within the buffers. */
  lemma StillLooping(hot: seq<Tuple>, h0: Reader, ha0: nat, h: Reader, ha: nat, hf: nat,
                     cold: seq<Tuple>, c0: Reader, ca0: nat, c: Reader, ca: nat, cf: nat,
                     start: Key, done: nat, limit: nat, calls0: seq<Tuple>, calls: seq<Tuple>,
                     stop: seq<Tuple> -> bool)
    requires Looping(hot, h0, ha0, hf, cold, c0, ca0, cf, start, done, limit, calls0, stop)
    requires Between(hot, h, ha, cold, c, ca, calls, Output(hot, cold, start, done), stop)
    requires SameEnd(h0, ha0, h, ha) && SameEnd(c0, ca0, c, ca) && ha0 <= ha && ca0 <= ca
    ensures Looping(hot, h, ha, hf, cold, c, ca, cf, start, done, limit, calls, stop)
    ensures Ahead(hot, h, ha) == Ahead(hot, h0, ha0) && Ahead(cold, c, ca) == Ahead(cold, c0, ca0)
  {
    hide LowerBound, Merge, Midway, Output;
    EndKept(hot, h0, ha0, h, ha, hf);
    EndKept(cold, c0, ca0, c, ca, cf);
  }

  lemma Begins(hot: seq<Tuple>, h: Reader, cold: seq<Tuple>, c: Reader, start: Key, limit: nat,
               stop: seq<Tuple> -> bool)
    requires Sorted(hot) && Sorted(cold) && KeysUpToMax(hot) && KeysUpToMax(cold)
    requires var h0, c0 := LowerBound(hot, start), LowerBound(cold, start);
             && Tracks(hot, h, h0, h0) && Tracks(cold, c, c0, c0)
             && Passes(hot, h0, h0, cold, c0, c0, start, 0, limit, stop)
    ensures var h0, c0 := LowerBound(hot, start), LowerBound(cold, start);
            Looping(hot, h, h0, h0, cold, c, c0, c0, start, 0, limit, [], stop)
  {
    hide LowerBound, Merge, Reads;
    Start(hot[LowerBound(hot, start)..], cold[LowerBound(cold, start)..], stop);
    FirstPass(hot, cold, start);
  }

  /** The calls are those of `n` passes after the first: one if a side starts over, more only up to a refusal. */
  ghost predicate Served(hot: seq<Tuple>, cold: seq<Tuple>, start: Key, calls: seq<Tuple>, stop: seq<Tuple> -> bool,
                         n: nat) {
    && Delivered(calls, Output(hot, cold, start, n), stop)
    && if calls != [] && stop(calls) then Again(hot, cold, start) == [] ==> n == 0
       else n == if Again(hot, cold, start) == [] then 0 else 1
  }

  /** The scan; the processor, called with one more entry each time, may depend on all entries so far. */
  method Scan(hot: seq<Tuple>, cold: seq<Tuple>, start: Key, stop: seq<Tuple> -> bool) returns (calls: seq<Tuple>)
    requires Sorted(hot) && Sorted(cold) && KeysUpToMax(hot) && KeysUpToMax(cold)
    requires Ends(hot, cold, start, stop) && (Apart(hot, cold) || Again(hot, cold, start) == [])
    ensures exists n :: Served(hot, cold, start, calls, stop, n)
    ensures Again(hot, cold, start) == [] ==> Delivered(calls, FromStart(hot, cold, start), stop)
  {
    FirstPass(hot, cold, start);
    hide Reads, Delivered, Midway, Merge, LowerBound, Aligned, EndSeen, Ahead, Output, Again, Ends, Apart, FromStart;
    ghost var ha, ca := LowerBound(hot, start), LowerBound(cold, start);
    ghost var hf, cf := ha, ca;
    ghost var limit := Limit(hot, cold, start, stop);
    var buf, end := Fill(hot, start);
    FreshReader(hot, buf, end, ha);
    var h := Reader(buf, 0, end);
    buf, end := Fill(cold, start);
    FreshReader(cold, buf, end, ca);
    var c := Reader(buf, 0, end);
    calls := [];
    ghost var done := 0;
    Begins(hot, h, cold, c, start, limit, stop);
    while true
      invariant Looping(hot, h, ha, hf, cold, c, ca, cf, start, done, limit, calls, stop)
      decreases limit - done, Ahead(hot, h, ha) + Ahead(cold, c, ca)
    {
      var stopped;
      ghost var all := Output(hot, cold, start, done);
      ghost var h0, ha0, c0, ca0, calls0 := h, ha, c, ca, calls;
      h, ha, c, ca, calls, stopped := MergeBuffers(hot, h, ha, cold, c, ca, calls, all, stop);
      if stopped {
        assert Served(hot, cold, start, calls, stop, done);
        return;
      }
      h, ha, calls, stopped := DrainHot(hot, h, ha, cold, c, ca, calls, all, stop);
      if stopped {
        assert Served(hot, cold, start, calls, stop, done);
        return;
      }
      c, ca, calls, stopped := DrainCold(hot, h, ha, cold, c, ca, calls, all, stop);
      if stopped {
        assert Served(hot, cold, start, calls, stop, done);
        return;
      }
      StillLooping(hot, h0, ha0, h, ha, hf, cold, c0, ca0, c, ca, cf, start, done, limit, calls0, calls, stop);
      ReadsBounds(hot, h, ha);
      ReadsBounds(cold, c, ca);
      var h1, c1;
      ghost var ha1, hf1, ca1, cf1, done1, done2;
      h1, ha1, hf1, done1 := RefillHot(hot, h, ha, hf, cold, c, ca, cf, start, done, limit, calls, stop);
      c1, ca1, cf1, done2 := RefillCold(hot, h1, ha1, hf1, cold, c, ca, cf, start, done1, limit, calls, stop);
      ReadsBounds(hot, h1, ha1);
      ReadsBounds(cold, c1, ca1);
      if Empty(c1) && c1.end && Empty(h1) && h1.end {
        Ended(hot, h1, ha1, hf1, cold, c1, ca1, cf1, start, done2, limit, calls, stop);
        assert Served(hot, cold, start, calls, stop, done2);
        return;
      }
      h, ha, hf, c, ca, cf, done := h1, ha1, hf1, c1, ca1, cf1, done2;
    }
  }

  /** A processor that wants one tuple more than a full buffer ending with the largest key gets the first one twice. */
  method ScanFullBuffer(hot: seq<Tuple>) returns (calls: seq<Tuple>)
    requires |hot| == BUFFER && Sorted(hot) && KeysUpToMax(hot) && hot[BUFFER - 1].key == MAX_KEY
    ensures calls == hot + [hot[0]]
  {
    var stop := (s: seq<Tuple>) => |s| > BUFFER;
    FullBuffer(hot, stop);
    calls := Scan(hot, [], 0, stop);
    ghost var n :| Served(hot, [], 0, calls, stop, n);
    TwiceAsLong(hot, calls, n, stop);
  }

  lemma FullBuffer(hot: seq<Tuple>, stop: seq<Tuple> -> bool)
    requires |hot| == BUFFER && Sorted(hot) && KeysUpToMax(hot) && hot[BUFFER - 1].key == MAX_KEY
    requires forall s :: stop(s) <==> |s| > BUFFER
    ensures Again(hot, [], 0) == hot && FromStart(hot, [], 0) == hot && Ends(hot, [], 0, stop) && Apart(hot, [])
  {
    assert LowerBound(hot, 0) == 0 && hot[0..] == hot;
    MergeNone(hot);
    assert FromStart(hot, [], 0) == hot && Again(hot, [], 0) == hot;
    RepeatStart(hot, 1);
    hide FromStart, Repeat, LowerBound, Merge, Sorted, KeysUpToMax;
    var s := FromStart(hot, [], 0) + Repeat(hot, 1);
    TooLong(s, stop);
  }

  lemma TooLong(s: seq<Tuple>, stop: seq<Tuple> -> bool)
    requires (forall s :: stop(s) <==> |s| > BUFFER) && |s| > BUFFER
    ensures Refuses(s, stop)
  {
    assert stop(s[..|s|]);
  }

  lemma NotTooLong(calls: seq<Tuple>, i: nat, stop: seq<Tuple> -> bool)
    requires (forall s :: stop(s) <==> |s| > BUFFER) && i <= |calls| && !stop(calls[..i])
    ensures i <= BUFFER
  {
  }

  lemma TwiceAsLong(hot: seq<Tuple>, calls: seq<Tuple>, done: nat, stop: seq<Tuple> -> bool)
    requires |hot| == BUFFER && Again(hot, [], 0) == hot && FromStart(hot, [], 0) == hot
    requires (forall s :: stop(s) <==> |s| > BUFFER) && Delivered(calls, Output(hot, [], 0, done), stop)
    requires calls == [] || !stop(calls) ==> done == 1
    ensures calls == hot + [hot[0]]
  {
    var all := hot + Repeat(hot, done);
    hide FromStart, Again, Repeat;
    if calls != [] {
      NotTooLong(calls, |calls| - 1, stop);
    }
    RepeatStart(hot, done);
    assert |calls| == BUFFER + 1;
    assert calls == all[..BUFFER + 1];
  }

  lemma {:induction false} RepeatStart(w: seq<Tuple>, n: nat)
    requires w != []
    ensures if n == 0 then Repeat(w, n) == [] else |Repeat(w, n)| >= |w| && Repeat(w, n)[0] == w[0]
  {
    if n > 1 {
      RepeatStart(w, n - 1);
    }
  }

  // ---------------------------------------------------------------------------------------
  // The scan of a store
  // ---------------------------------------------------------------------------------------

  /** `s` enumerates `m` in ascending key order. */
  ghost predicate Lists(s: seq<Tuple>, m: map<Key, Payload>) {
    Sorted(s) && forall x :: x in s <==> x.key in m && m[x.key] == x.payload
  }

  /** The evict table with the payloads its tombstones lead to. */
  function ColdPart(evicted: Evicted, blocks: Blocks, size: Size): (m: map<Key, Payload>) {
    map k | k in evicted :: PayloadAt(evicted[k], blocks, size)
  }

  /**
   What the scan delivers from is the map of the whole store, from the start key on, in order and without
   repetition.
   */
  lemma UnionFromStart(t: Store, hot: seq<Tuple>, cold: seq<Tuple>, start: Key)
    requires t.Valid() && Lists(hot, t.cache) && Lists(cold, ColdPart(t.evicted, t.blocks, t.size))
    ensures var all := FromStart(hot, cold, start);
            && Sorted(all)
            && forall x :: x in all <==> x.key in t.Model() && t.Model()[x.key] == x.payload && start <= x.key
  {
    hide LowerBound, Merge, FromStart, Placed, Ringed;
    forall i, j | 0 <= i < |hot| && 0 <= j < |cold| ensures hot[i].key != cold[j].key {
      assert hot[i].key in t.cache && cold[j].key in t.evicted;
    }
    FromStartMembers(hot, cold, start);
    SideFromStart(hot, start);
    SideFromStart(cold, start);
  }

  lemma SideFromStart(s: seq<Tuple>, start: Key)
    requires Sorted(s)
    ensures forall x :: x in s[LowerBound(s, start)..] <==> x in s && start <= x.key
  {
    var p := LowerBound(s, start);
    hide LowerBound;
    assert s == s[..p] + s[p..];
    forall x ensures x in s[p..] <==> x in s && start <= x.key {
    }
  }
}
