/**
 * The ways the version store changes (Row_mvcc::reserveRow and the store updates of
 * Row_mvcc::access): garbage collection, forced recycling, doubling, reserving, installing and
 * dropping a slot. Each keeps the store in step with the unbounded history.
 */
module MvccReserve {
  import opened MvccStore

  // ----- garbage collection

  function Invalidated(e: Entry, bound: nat): Entry {
    if e.valid && e.ts <= bound then e.(valid := false, reserved := false) else e
  }

  /** Drops every version up to `bound`, keeping the count. */
  method Invalidate(h: seq<Entry>, bound: nat, count: nat) returns (r: seq<Entry>, n: nat)
    requires count == Count(h)
    ensures |r| == |h| && n == Count(r)
    ensures forall i :: 0 <= i < |h| ==> r[i] == Invalidated(h[i], bound)
  {
    r, n := h, count;
    var i := 0;
    while i < |r|
      invariant 0 <= i <= |r| == |h| && n == Count(r)
      invariant forall j :: 0 <= j < i ==> r[j] == Invalidated(h[j], bound)
      invariant forall j :: i <= j < |r| ==> r[j] == h[j]
    {
      if r[i].valid && r[i].ts <= bound {
        CountUpdate(r, i, r[i].(valid := false, reserved := false));
        CountFull(r);
        r := r[i := r[i].(valid := false, reserved := false)];
        n := n - 1;
      }
      i := i + 1;
    }
  }

  /** The buffers of `row` and of slot `idx` change places. */
  function Swapped(st: Store, idx: nat): Store
    requires idx < |st.hist|
  {
    st.(row := st.hist[idx].row, hist := st.hist[idx := st.hist[idx].(row := st.row)])
  }

  lemma SwapPointers(st: Store, idx: nat)
    requires PointersOK(st) && idx < |st.hist| && st.hist[idx].row != NULL
    ensures PointersOK(Swapped(st, idx))
  {
    var r := Swapped(st, idx);
    forall i, j | 0 <= i < j < |r.hist| && r.hist[i].row != NULL
      ensures r.hist[i].row != r.hist[j].row
    {
      if j == idx {
        assert st.hist[i].row != st.row;
      }
    }
  }

  /** `r` is `st` with slot `idx` moved to `row` and the versions up to it dropped. */
  predicate Advanced(st: Store, r: Store, idx: nat) {
    && idx < |st.hist| && st.hist[idx].valid
    && |r.hist| == |st.hist|
    && (forall i :: 0 <= i < |r.hist| ==> r.hist[i] == Invalidated(Swapped(st, idx).hist[i], st.hist[idx].ts))
    && r == st.(row := st.hist[idx].row, oldestWts := st.hist[idx].ts, hist := r.hist, numVersions := Count(r.hist))
  }

  lemma AdvancedPointers(st: Store, r: Store, idx: nat)
    requires PointersOK(st) && Advanced(st, r, idx) && st.hist[idx].row != NULL
    ensures PointersOK(r)
  {
    SwapPointers(st, idx);
    var m := Swapped(st, idx);
    assert forall i :: 0 <= i < |r.hist| ==> r.hist[i].row == m.hist[i].row;
    forall i, j | 0 <= i < j < |r.hist| && r.hist[i].row != NULL
      ensures r.hist[i].row != r.hist[j].row
    {
      assert m.hist[i].row != m.hist[j].row;
    }
  }

  lemma AdvancedSlots(st: Store, r: Store, idx: nat, vs: map<nat, Value>)
    requires Core(st, vs, -1) && Advanced(st, r, idx)
    ensures ReservedOK(r.hist, -1) && DistinctTs(r.hist)
    ensures forall i :: 0 <= i < |r.hist| && r.hist[i].valid ==> i != idx && r.hist[i] == st.hist[i] && st.hist[i].ts > st.hist[idx].ts
    ensures forall i :: 0 <= i < |st.hist| && st.hist[i].valid && st.hist[i].ts > st.hist[idx].ts ==> r.hist[i] == st.hist[i]
  {
  }

  lemma AdvancedCore(st: Store, r: Store, idx: nat, vs: map<nat, Value>)
    requires Core(st, vs, -1) && Advanced(st, r, idx)
    ensures Core(r, vs, -1)
  {
    var bound := st.hist[idx].ts;
    assert SlotOK(st, vs, idx);
    AdvancedPointers(st, r, idx);
    AdvancedSlots(st, r, idx, vs);
    forall i | 0 <= i < |r.hist|
      ensures SlotOK(r, vs, i)
    {
      assert SlotOK(st, vs, i);
    }
    forall t | t in vs && bound < t
      ensures Stored(r, t)
    {
      assert Stored(st, t);
      var i :| 0 <= i < |st.hist| && st.hist[i].valid && st.hist[i].ts == t;
      assert r.hist[i] == st.hist[i];
    }
  }

  lemma PositiveTs(st: Store, vs: map<nat, Value>, pre: int)
    requires Core(st, vs, pre)
    ensures forall i :: 0 <= i < |st.hist| && st.hist[i].valid ==> st.hist[i].ts > 0
  {
    forall i | 0 <= i < |st.hist| && st.hist[i].valid
      ensures st.hist[i].ts > 0
    {
      assert SlotOK(st, vs, i);
    }
  }

  /** Garbage collection: the youngest version below `minTs` becomes the oldest one kept. */
  method Collect(st: Store, minTs: nat, ghost vs: map<nat, Value>) returns (r: Store)
    requires Core(st, vs, -1)
    ensures Core(r, vs, -1)
    ensures r.mem == st.mem && r.latestWts == st.latestWts && r.latestRow == st.latestRow && |r.hist| == |st.hist|
    ensures r != st ==> st.oldestWts < r.oldestWts < minTs && st.numVersions == |st.hist| && r.oldestWts in vs && r.numVersions < |r.hist|
    ensures r != st ==> forall t :: t in vs && t < minTs ==> t <= r.oldestWts
    ensures r == st && st.numVersions == |st.hist| && st.oldestWts < minTs ==> forall t :: t in vs && t < minTs ==> t <= st.oldestWts
  {
    r := st;
    if st.oldestWts < minTs && st.numVersions == |st.hist| {
      PositiveTs(st, vs, -1);
      var idx := MaxBelow(st.hist, minTs);
      BestIsMax(st, vs, minTs, idx);
      if idx != -1 {
        assert SlotOK(st, vs, idx);
        r := Advance(st, idx, vs);
      }
    }
  }

  /** The version of slot `idx` becomes the oldest one; those up to it are dropped. */
  method Advance(st: Store, idx: nat, ghost vs: map<nat, Value>) returns (r: Store)
    requires Core(st, vs, -1) && idx < |st.hist| && st.hist[idx].valid
    ensures Core(r, vs, -1) && r.oldestWts == st.hist[idx].ts && r.numVersions < |r.hist| == |st.hist|
    ensures r.mem == st.mem && r.latestWts == st.latestWts && r.latestRow == st.latestRow
  {
    CountUpdate(st.hist, idx, st.hist[idx].(row := st.row));
    var h, n := Invalidate(st.hist[idx := st.hist[idx].(row := st.row)], st.hist[idx].ts, st.numVersions);
    r := st.(row := st.hist[idx].row, oldestWts := st.hist[idx].ts, hist := h, numVersions := n);
    assert Advanced(st, r, idx);
    AdvancedCore(st, r, idx, vs);
    CountFull(h);
    assert !h[idx].valid;
  }

  /** The best slot below a bound holds the youngest version below it, or `row` does. */
  lemma BestIsMax(st: Store, vs: map<nat, Value>, bound: nat, idx: int)
    requires Core(st, vs, -1) && IsBest(st.hist, bound, idx)
    ensures forall t :: t in vs && t < bound ==> t <= if idx == -1 then st.oldestWts else st.hist[idx].ts
  {
    forall t | t in vs && t < bound
      ensures t <= if idx == -1 then st.oldestWts else st.hist[idx].ts
    {
      if idx != -1 {
        assert SlotOK(st, vs, idx);
      }
      if st.oldestWts < t {
        assert Stored(st, t);
        var i :| 0 <= i < |st.hist| && st.hist[i].valid && st.hist[i].ts == t;
      }
    }
  }

  // ----- doubling

  function Doubled(h: seq<Entry>): (r: seq<Entry>)
    ensures |r| == 2 * |h|
  {
    h + seq(|h|, _ => Entry(false, false, 0, NULL))
  }

  lemma DoubledCore(st: Store, vs: map<nat, Value>)
    requires Core(st, vs, -1)
    ensures Core(st.(hist := Doubled(st.hist)), vs, -1)
  {
    var r := st.(hist := Doubled(st.hist));
    CountAppend(st.hist, seq(|st.hist|, _ => Entry(false, false, 0, NULL)));
    forall i | 0 <= i < |r.hist|
      ensures SlotOK(r, vs, i)
    {
      if i < |st.hist| {
        assert SlotOK(st, vs, i);
      }
    }
    forall t | t in vs && st.oldestWts < t
      ensures Stored(r, t)
    {
      assert Stored(st, t);
      var i :| 0 <= i < |st.hist| && st.hist[i].valid && st.hist[i].ts == t;
      assert r.hist[i] == st.hist[i];
    }
  }

  // ----- reserving

  /** Slot `idx` reserved for a prewrite at `ts`, with a new buffer if it has none. */
  function Reserved(st: Store, idx: nat, ts: nat): Store
    requires idx < |st.hist|
  {
    if st.hist[idx].row == NULL then
      st.(mem := st.mem + [0], hist := st.hist[idx := Entry(false, true, ts, |st.mem|)])
    else
      st.(hist := st.hist[idx := Entry(false, true, ts, st.hist[idx].row)])
  }

  /** A change of one unused slot, and more buffers, leave every version where it was. */
  lemma UnusedSlot(st: Store, r: Store, idx: nat, vs: map<nat, Value>, pre: int, pre': int)
    requires Core(st, vs, pre) && idx < |st.hist| && !st.hist[idx].valid
    requires |st.mem| <= |r.mem| && r.mem[..|st.mem|] == st.mem
    requires |r.hist| == |st.hist| && r.hist == st.hist[idx := r.hist[idx]] && !r.hist[idx].valid
    requires r == st.(mem := r.mem, hist := r.hist)
    requires PointersOK(r) && ReservedOK(r.hist, pre')
    ensures Core(r, vs, pre')
  {
    CountUpdate(st.hist, idx, r.hist[idx]);
    assert forall a :: 0 <= a < |st.mem| ==> r.mem[a] == r.mem[..|st.mem|][a];
    forall i | 0 <= i < |r.hist|
      ensures SlotOK(r, vs, i)
    {
      assert SlotOK(st, vs, i);
    }
    forall t | t in vs && st.oldestWts < t
      ensures Stored(r, t)
    {
      assert Stored(st, t);
      var i :| 0 <= i < |st.hist| && st.hist[i].valid && st.hist[i].ts == t;
      assert r.hist[i] == st.hist[i];
    }
  }

  lemma ReservedPointers(st: Store, idx: nat, ts: nat)
    requires PointersOK(st) && idx < |st.hist|
    ensures PointersOK(Reserved(st, idx, ts))
  {
    var r := Reserved(st, idx, ts);
    forall i, j | 0 <= i < j < |r.hist| && r.hist[i].row != NULL
      ensures r.hist[i].row != r.hist[j].row
    {
      if i != idx && j != idx {
        assert st.hist[i].row != st.hist[j].row;
      }
    }
  }

  lemma ReservedCore(st: Store, idx: nat, ts: nat, vs: map<nat, Value>)
    requires Core(st, vs, -1) && idx < |st.hist| && !st.hist[idx].valid
    ensures Core(Reserved(st, idx, ts), vs, idx)
  {
    ReservedPointers(st, idx, ts);
    UnusedSlot(st, Reserved(st, idx, ts), idx, vs, -1, idx);
  }

  // ----- which versions may be lost

  ghost function Above(vs: map<nat, Value>, oldest: nat): set<nat> {
    set k | k in vs && k > oldest
  }

  ghost function ValidTs(h: seq<Entry>): set<nat> {
    set i | 0 <= i < |h| && h[i].valid :: h[i].ts
  }

  lemma {:induction false} CountIsCard(h: seq<Entry>)
    requires DistinctTs(h)
    ensures |ValidTs(h)| == Count(h)
  {
    if h != [] {
      var n := |h| - 1;
      CountIsCard(h[..n]);
      assert forall i :: 0 <= i < n ==> h[..n][i] == h[i];
      if h[n].valid {
        assert ValidTs(h) == ValidTs(h[..n]) + {h[n].ts};
        assert h[n].ts !in ValidTs(h[..n]);
      } else {
        assert ValidTs(h) == ValidTs(h[..n]);
      }
    }
  }

  /** The history holds exactly the versions above the oldest. */
  lemma CountAbove(st: Store, vs: map<nat, Value>, pre: int)
    requires Core(st, vs, pre)
    ensures |Above(vs, st.oldestWts)| == st.numVersions
  {
    CountIsCard(st.hist);
    forall t | t in Above(vs, st.oldestWts)
      ensures t in ValidTs(st.hist)
    {
      assert Stored(st, t);
    }
    forall t | t in ValidTs(st.hist)
      ensures t in Above(vs, st.oldestWts)
    {
      var i :| 0 <= i < |st.hist| && st.hist[i].valid && st.hist[i].ts == t;
      assert SlotOK(st, vs, i);
    }
    assert Above(vs, st.oldestWts) == ValidTs(st.hist);
  }

  /**
   * How the oldest version kept may move: not at all; or, with at least four versions above it,
   * to the youngest version below `minTs`; or, when there is none to collect and at least as many
   * versions as threads are held, to the next one.
   */
  ghost predicate Recycles(vs: map<nat, Value>, oldest: nat, oldest': nat, minTs: nat, threads: nat) {
    || oldest' == oldest
    || (&& oldest < oldest' && oldest' in vs && |Above(vs, oldest)| >= 4
        && if oldest' < minTs then forall k :: k in vs && k < minTs ==> k <= oldest'
           else |Above(vs, oldest)| >= threads && forall k :: k in vs && k < oldest' ==> k <= oldest)
  }

  /**
   * reserveRow: garbage collection, then an unused slot, or the oldest version's, or a doubled
   * history's. Versions are lost only below `minTs`, or when the history is full and no shorter
   * than the number of threads.
   */
  method ReserveRow(st: Store, ts: nat, minTs: nat, threadCnt: nat, ghost vs: map<nat, Value>) returns (r: Store, idx: nat)
    requires Core(st, vs, -1) && |st.hist| >= 4
    ensures Core(r, vs, idx) && r.hist[idx].ts == ts
    ensures r.latestWts == st.latestWts && r.latestRow == st.latestRow
    ensures Recycles(vs, st.oldestWts, r.oldestWts, minTs, threadCnt)
    ensures |r.hist| == |st.hist| || (|r.hist| == 2 * |st.hist| && |st.hist| < threadCnt)
  {
    r := Collect(st, minTs, vs);
    CountAbove(st, vs, -1);
    ghost var c := r;
    r, idx := PickSlot(r, threadCnt, vs);
    ReservedCore(r, idx, ts, vs);
    r := Reserved(r, idx, ts);
  }

  /** An unused slot: a free one, the oldest version's, or the first of a doubled history. */
  method PickSlot(st: Store, threadCnt: nat, ghost vs: map<nat, Value>) returns (r: Store, idx: nat)
    requires Core(st, vs, -1) && |st.hist| >= 1
    ensures Core(r, vs, -1) && idx < |r.hist| && !r.hist[idx].valid
    ensures r.latestWts == st.latestWts && r.latestRow == st.latestRow && st.oldestWts <= r.oldestWts
    ensures r.oldestWts != st.oldestWts ==> st.numVersions == |st.hist| >= threadCnt && r.oldestWts in vs
    ensures forall t :: t in vs && t < r.oldestWts ==> t <= st.oldestWts
    ensures |r.hist| == |st.hist| || (|r.hist| == 2 * |st.hist| && |st.hist| < threadCnt)
  {
    r := st;
    CountFull(r.hist);
    if r.numVersions < |r.hist| {
      assert exists i :: 0 <= i < |r.hist| && !r.hist[i].valid && !r.hist[i].reserved;
      idx := FreeSlot(r.hist);
    } else if |r.hist| >= threadCnt {
      r, idx := Recycle(r, vs);
    } else {
      DoubledCore(r, vs);
      idx := |r.hist|;
      r := r.(hist := Doubled(r.hist));
    }
  }

  /** Forced recycling: the oldest version of the history replaces the one in `row`. */
  method Recycle(st: Store, ghost vs: map<nat, Value>) returns (r: Store, idx: nat)
    requires Core(st, vs, -1) && 1 <= st.numVersions
    ensures Core(r, vs, -1) && idx < |r.hist| && !r.hist[idx].valid
    ensures r.mem == st.mem && r.latestWts == st.latestWts && r.latestRow == st.latestRow && |r.hist| == |st.hist|
    ensures st.oldestWts < r.oldestWts && forall t :: t in vs && t < r.oldestWts ==> t <= st.oldestWts
  {
    CountFull(st.hist);
    var i := MinValid(st.hist);
    idx := i;
    assert SlotOK(st, vs, idx);
    var e := st.hist[idx].(valid := false, reserved := false, row := st.row);
    r := st.(row := st.hist[idx].row, oldestWts := st.hist[idx].ts, hist := st.hist[idx := e], numVersions := st.numVersions - 1);
    CountUpdate(st.hist, idx, e);
    assert forall j :: 0 <= j < |st.hist| && j != idx && st.hist[j].valid ==> st.hist[j].ts > st.hist[idx].ts;
    assert Advanced(st, r, idx);
    AdvancedCore(st, r, idx, vs);
    assert forall t :: t in vs && st.oldestWts < t ==> Stored(st, t);
  }

  // ----- using the reserved slot

  /** Writing the reserved buffer touches no version. */
  lemma BufferCore(st: Store, vs: map<nat, Value>, pre: nat, v: Value)
    requires Core(st, vs, pre)
    ensures Core(st.(mem := st.mem[st.hist[pre].row := v]), vs, pre)
  {
    var r := st.(mem := st.mem[st.hist[pre].row := v]);
    forall i | 0 <= i < |r.hist|
      ensures SlotOK(r, vs, i)
    {
      assert SlotOK(st, vs, i);
      if i < pre {
        assert st.hist[i].row == NULL || st.hist[i].row != st.hist[pre].row;
      }
    }
    forall t | t in vs && st.oldestWts < t
      ensures Stored(r, t)
    {
      assert Stored(st, t);
      var i :| 0 <= i < |st.hist| && st.hist[i].valid && st.hist[i].ts == t;
      assert r.hist[i] == st.hist[i];
    }
  }

  /** The store after a write request at `ts`. */
  function Installed(st: Store, pre: nat, ts: nat): Store
    requires pre < |st.hist|
  {
    st.(hist := st.hist[pre := st.hist[pre].(valid := true, ts := ts)], latestWts := ts, latestRow := st.hist[pre].row,
        numVersions := st.numVersions + 1)
  }

  /** Installing adds exactly one version, the buffer's contents. */
  lemma InstalledCore(st: Store, vs: map<nat, Value>, pre: nat, ts: nat)
    requires Core(st, vs, pre) && st.latestWts < ts
    ensures Core(Installed(st, pre, ts), vs[ts := st.mem[st.hist[pre].row]], -1)
  {
    var r := Installed(st, pre, ts);
    var vs' := vs[ts := st.mem[st.hist[pre].row]];
    CountUpdate(st.hist, pre, r.hist[pre]);
    assert st.oldestWts <= st.latestWts;
    forall i | 0 <= i < |r.hist|
      ensures SlotOK(r, vs', i) && (i != pre && r.hist[i].valid ==> r.hist[i].ts < ts)
    {
      assert SlotOK(st, vs, i);
    }
    forall t | t in vs' && r.oldestWts < t
      ensures Stored(r, t)
    {
      if t == ts {
        assert r.hist[pre].valid;
      } else {
        assert Stored(st, t);
        var i :| 0 <= i < |st.hist| && st.hist[i].valid && st.hist[i].ts == t;
        assert r.hist[i] == st.hist[i];
      }
    }
  }

  /** The store after an aborted prewrite. */
  function Dropped(st: Store, pre: nat): Store
    requires pre < |st.hist|
  {
    st.(hist := st.hist[pre := st.hist[pre].(valid := false, reserved := false)])
  }

  lemma DroppedCore(st: Store, vs: map<nat, Value>, pre: nat)
    requires Core(st, vs, pre)
    ensures Core(Dropped(st, pre), vs, -1)
  {
    var r := Dropped(st, pre);
    forall i, j | 0 <= i < j < |r.hist| && r.hist[i].row != NULL
      ensures r.hist[i].row != r.hist[j].row
    {
      assert st.hist[i].row != st.hist[j].row;
    }
    UnusedSlot(st, r, pre, vs, pre, -1);
  }

  // ----- a history on which the 32-bit search goes wrong

  function Empty(v: Value): Store {
    Store([v], 0, 0, 0, 0, [Entry(false, false, 0, NULL), Entry(false, false, 0, NULL), Entry(false, false, 0, NULL),
        Entry(false, false, 0, NULL)], 0)
  }

  /** A prewrite into slot `idx` and its write, at `ts` with value `v`. */
  function Put(st: Store, idx: nat, ts: nat, v: Value): Store
    requires idx < |st.hist| && st.hist[idx].row == NULL
  {
    var r := Reserved(st, idx, ts);
    Installed(r.(mem := r.mem[r.hist[idx].row := v]), idx, ts)
  }

  /**
   * Three writes, at 5, 2^32 and 2^32 + 9, go into the slots that the search for a free one gives
   * them; then a read at 2^32 + 7 finds version 5 instead of 2^32.
   */
  lemma TruncationReached(v: Value, a: Value, b: Value, c: Value)
    ensures var s0 := Empty(v);
            && IsFreeSlot(s0.hist, 3)
            && var s1 := Put(s0, 3, 5, a);
            && IsFreeSlot(s1.hist, 2)
            && var s2 := Put(s1, 2, 0x1_0000_0000, b);
            && IsFreeSlot(s2.hist, 1)
            && var s3 := Put(s2, 1, 0x1_0000_0009, c);
            && s3.oldestWts < 0x1_0000_0007 <= s3.latestWts
            && Pick(s3.hist, 0x1_0000_0007, 4).0 == 3 && !IsBest(s3.hist, 0x1_0000_0007, 3)
  {
    var s0 := Empty(v);
    var s1 := Put(s0, 3, 5, a);
    var s2 := Put(s1, 2, 0x1_0000_0000, b);
    var s3 := Put(s2, 1, 0x1_0000_0009, c);
    var h, ts := s3.hist, 0x1_0000_0007;
    assert h[0] == Entry(false, false, 0, NULL) && h[1].ts == 0x1_0000_0009;
    assert h[2].valid && h[2].ts == 0x1_0000_0000 && h[3].valid && h[3].ts == 5;
    assert Pick(h, ts, 0) == (-1, 0);
    assert Pick(h, ts, 1) == (-1, 0);
    assert Pick(h, ts, 2) == (-1, 0);
    assert Pick(h, ts, 3) == (2, 0);
    assert Pick(h, ts, 4) == (3, 5);
  }
}
