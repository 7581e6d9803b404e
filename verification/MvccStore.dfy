/**
 * The bounded version store of a multi-version row (trusted/concurrency_control/row_mvcc.cpp):
 * a history array that is searched, garbage collected, doubled and forcibly recycled, with the
 * tuple buffers shared between its slots, the oldest version `row` and `latestRow`.
 */
module MvccStore {
  type Value = int

  const NULL: int := -1

  /** WriteHisEntry */
  datatype Entry = Entry(valid: bool, reserved: bool, ts: nat, row: int)

  /** The fields of Row_mvcc that hold versions; `mem` are the allocated tuple buffers, addressed by index. */
  datatype Store = Store(mem: seq<Value>, row: int, latestRow: int, latestWts: nat, oldestWts: nat, hist: seq<Entry>, numVersions: nat)

  function Count(h: seq<Entry>): (n: nat)
    ensures n <= |h|
  {
    if h == [] then 0 else Count(h[..|h| - 1]) + (if h[|h| - 1].valid then 1 else 0)
  }

  // ----- the invariant: the store against the unbounded history `vs`

  /** Every buffer has one user. */
  predicate PointersOK(st: Store) {
    && 0 <= st.row < |st.mem|
    && (forall i :: 0 <= i < |st.hist| && st.hist[i].row != NULL ==> 0 <= st.hist[i].row < |st.mem| && st.hist[i].row != st.row)
    && (forall i, j :: 0 <= i < j < |st.hist| && st.hist[i].row != NULL ==> st.hist[i].row != st.hist[j].row)
  }

  /** A valid slot holds a committed version younger than `row`. */
  predicate SlotOK(st: Store, vs: map<nat, Value>, i: nat)
    requires i < |st.hist|
  {
    var e := st.hist[i];
    e.valid ==>
      && 0 <= e.row < |st.mem| && st.oldestWts < e.ts <= st.latestWts
      && e.ts in vs && st.mem[e.row] == vs[e.ts]
      && (e.ts == st.latestWts ==> st.latestRow == e.row)
  }

  predicate Stored(st: Store, t: nat) {
    exists i :: 0 <= i < |st.hist| && st.hist[i].valid && st.hist[i].ts == t
  }

  /** No unused slot is reserved, except `pre`: the slot of the outstanding prewrite, or -1. */
  predicate ReservedOK(h: seq<Entry>, pre: int) {
    && (forall i :: 0 <= i < |h| && !h[i].valid && h[i].reserved ==> i == pre)
    && (pre != -1 ==> 0 <= pre < |h| && !h[pre].valid && h[pre].reserved && h[pre].row != NULL)
  }

  predicate DistinctTs(h: seq<Entry>) {
    forall i, j :: 0 <= i < j < |h| && h[i].valid && h[j].valid ==> h[i].ts != h[j].ts
  }

  ghost predicate Core(st: Store, vs: map<nat, Value>, pre: int) {
    && PointersOK(st) && ReservedOK(st.hist, pre) && DistinctTs(st.hist)
    && st.numVersions == Count(st.hist)
    && (forall i :: 0 <= i < |st.hist| ==> SlotOK(st, vs, i))
    && (forall t :: t in vs && st.oldestWts < t ==> Stored(st, t))
    && st.oldestWts in vs && st.mem[st.row] == vs[st.oldestWts]
    && st.latestWts in vs && (forall t :: t in vs ==> t <= st.latestWts)
    && (st.latestWts == st.oldestWts ==> st.latestRow == st.row)
    && 0 <= st.latestRow < |st.mem|
  }

  /** `v` is the committed version with the largest timestamp below `ts`. */
  ghost predicate IsLatestBelow(vs: map<nat, Value>, ts: nat, v: Value) {
    exists k :: k in vs && k < ts && vs[k] == v && forall j :: j in vs && j < ts ==> j <= k
  }

  /** `v` is some committed version below `ts`. */
  ghost predicate IsBelow(vs: map<nat, Value>, ts: nat, v: Value) {
    exists k :: k in vs && k < ts && vs[k] == v
  }

  /** The latest buffer holds the latest version. */
  lemma LatestRow(st: Store, vs: map<nat, Value>, pre: int)
    requires Core(st, vs, pre)
    ensures st.mem[st.latestRow] == vs[st.latestWts]
    ensures pre != -1 ==> st.latestRow != st.hist[pre].row
  {
    if st.latestWts != st.oldestWts {
      assert st.oldestWts <= st.latestWts;
      assert Stored(st, st.latestWts);
      var i :| 0 <= i < |st.hist| && st.hist[i].valid && st.hist[i].ts == st.latestWts;
      assert SlotOK(st, vs, i);
    }
  }

  // ----- searching

  /** The read loop: the largest valid timestamp below `ts`, kept in a 32-bit variable. */
  function Pick(h: seq<Entry>, ts: nat, n: nat): (int, nat)
    requires n <= |h|
  {
    if n == 0 then (-1, 0)
    else
      var (i, best) := Pick(h, ts, n - 1);
      var e := h[n - 1];
      if e.valid && e.ts < ts && e.ts > best then (n - 1, e.ts % 0x1_0000_0000) else (i, best)
  }

  method FindVersion(h: seq<Entry>, ts: nat) returns (theI: int)
    ensures theI == Pick(h, ts, |h|).0
  {
    var theTs, i := 0, 0;
    theI := -1;
    while i < |h|
      invariant 0 <= i <= |h| && (theI, theTs) == Pick(h, ts, i)
    {
      if h[i].valid && h[i].ts < ts && h[i].ts > theTs {
        theTs := h[i].ts % 0x1_0000_0000;
        theI := i;
      }
      i := i + 1;
    }
  }

  /** Whatever the truncation does, the loop picks a valid slot below `ts`, or none. */
  lemma {:induction false} PickBelow(h: seq<Entry>, ts: nat, n: nat)
    requires n <= |h|
    ensures var i := Pick(h, ts, n).0; i == -1 || (0 <= i < n && h[i].valid && h[i].ts < ts)
  {
    if n > 0 {
      PickBelow(h, ts, n - 1);
    }
  }

  /** `i` is the valid slot with the largest timestamp below `ts`; -1 when there is none. */
  predicate IsBest(h: seq<Entry>, ts: nat, i: int) {
    && (i == -1 ==> forall j :: 0 <= j < |h| && h[j].valid ==> h[j].ts >= ts)
    && (i != -1 ==>
          && 0 <= i < |h| && h[i].valid && h[i].ts < ts
          && forall j :: 0 <= j < |h| && h[j].valid && h[j].ts < ts ==> h[j].ts <= h[i].ts)
  }

  /** Below 2^32 the 32-bit variable does not matter: the loop finds the right version. */
  lemma {:induction false} PickBest(h: seq<Entry>, ts: nat, n: nat)
    requires n <= |h| && ts <= 0x1_0000_0000
    requires forall i :: 0 <= i < |h| && h[i].valid ==> h[i].ts > 0
    ensures var (i, best) := Pick(h, ts, n);
            IsBest(h[..n], ts, i) && (i == -1 ==> best == 0) && (i != -1 ==> best == h[i].ts)
  {
    if n > 0 {
      PickBest(h, ts, n - 1);
      assert h[..n] == h[..n - 1] + [h[n - 1]];
    }
  }

  /** From 2^32 on it does: with versions 2^32 and 5, a read above both gets version 5. */
  lemma PickTruncates(ts: nat)
    requires ts > 0x1_0000_0000
    ensures var h := [Entry(true, true, 0x1_0000_0000, 1), Entry(true, true, 5, 2)];
            Pick(h, ts, 2).0 == 1 && !IsBest(h, ts, 1)
  {
    var h := [Entry(true, true, 0x1_0000_0000, 1), Entry(true, true, 5, 2)];
    assert Pick(h, ts, 0) == (-1, 0);
    assert Pick(h, ts, 1) == (0, 0);
    assert Pick(h, ts, 2) == (1, 5);
    assert h[0].valid && h[0].ts < ts;
  }

  ghost predicate PicksRight(ts: nat) {
    forall h: seq<Entry> :: (forall i :: 0 <= i < |h| && h[i].valid ==> h[i].ts > 0) ==> IsBest(h, ts, Pick(h, ts, |h|).0)
  }

  /** The read loop is right on every history exactly for timestamps up to 2^32. */
  lemma PickExact(ts: nat)
    ensures PicksRight(ts) <==> ts <= 0x1_0000_0000
  {
    if ts <= 0x1_0000_0000 {
      forall h: seq<Entry> | forall i :: 0 <= i < |h| && h[i].valid ==> h[i].ts > 0
        ensures IsBest(h, ts, Pick(h, ts, |h|).0)
      {
        PickBest(h, ts, |h|);
        assert h[..|h|] == h;
      }
    } else {
      PickTruncates(ts);
      var h := [Entry(true, true, 0x1_0000_0000, 1), Entry(true, true, 5, 2)];
      assert !IsBest(h, ts, Pick(h, ts, |h|).0);
    }
  }

  /** The garbage collection loop: the same search with 64-bit timestamps. */
  method MaxBelow(h: seq<Entry>, bound: nat) returns (idx: int)
    requires forall i :: 0 <= i < |h| && h[i].valid ==> h[i].ts > 0
    ensures IsBest(h, bound, idx)
  {
    var best, i := 0, 0;
    idx := -1;
    while i < |h|
      invariant 0 <= i <= |h| && IsBest(h[..i], bound, idx)
      invariant idx == -1 ==> best == 0
      invariant idx != -1 ==> best == h[idx].ts
    {
      assert h[..i + 1] == h[..i] + [h[i]];
      if h[i].valid && h[i].ts < bound && h[i].ts > best {
        best := h[i].ts;
        idx := i;
      }
      i := i + 1;
    }
    assert h[..i] == h;
  }

  /** The forced recycling loop: the oldest valid slot. */
  method MinValid(h: seq<Entry>) returns (idx: int)
    requires exists i :: 0 <= i < |h| && h[i].valid
    ensures 0 <= idx < |h| && h[idx].valid && forall j :: 0 <= j < |h| && h[j].valid ==> h[idx].ts <= h[j].ts
  {
    var i := 0;
    idx := -1;
    while i < |h|
      invariant 0 <= i <= |h| && -1 <= idx < i
      invariant idx == -1 ==> forall j :: 0 <= j < i ==> !h[j].valid
      invariant idx != -1 ==> h[idx].valid && forall j :: 0 <= j < i && h[j].valid ==> h[idx].ts <= h[j].ts
    {
      if h[i].valid && (idx == -1 || h[i].ts < h[idx].ts) {
        idx := i;
      }
      i := i + 1;
    }
  }

  /** The unused slot that is taken: the first with a buffer, else the last one without. */
  predicate IsFreeSlot(h: seq<Entry>, idx: int) {
    && 0 <= idx < |h| && !h[idx].valid && !h[idx].reserved
    && (h[idx].row != NULL ==> forall j :: 0 <= j < idx && !h[j].valid && !h[j].reserved ==> h[j].row == NULL)
    && (h[idx].row == NULL ==> forall j :: 0 <= j < |h| && !h[j].valid && !h[j].reserved ==> h[j].row == NULL && j <= idx)
  }

  /** The search for an unused slot: the first one with a buffer, else the last one without. */
  method FreeSlot(h: seq<Entry>) returns (idx: int)
    requires exists i :: 0 <= i < |h| && !h[i].valid && !h[i].reserved
    ensures IsFreeSlot(h, idx)
  {
    var i := 0;
    idx := -1;
    while i < |h|
      invariant 0 <= i <= |h| && -1 <= idx < i
      invariant idx == -1 ==> forall j :: 0 <= j < i ==> h[j].valid || h[j].reserved
      invariant idx != -1 ==> !h[idx].valid && !h[idx].reserved && forall j :: idx < j < i ==> h[j].valid || h[j].reserved
      invariant forall j :: 0 <= j < i && !h[j].valid && !h[j].reserved ==> h[j].row == NULL
    {
      if !h[i].valid && !h[i].reserved && h[i].row != NULL {
        return i;
      } else if !h[i].valid && !h[i].reserved {
        idx := i;
      }
      i := i + 1;
    }
  }

  // ----- counting

  lemma {:induction false} CountUpdate(h: seq<Entry>, i: nat, e: Entry)
    requires i < |h|
    ensures Count(h[i := e]) == Count(h) - (if h[i].valid then 1 else 0) + (if e.valid then 1 else 0)
  {
    var n := |h| - 1;
    if i == n {
      assert h[i := e][..n] == h[..n];
    } else {
      assert h[i := e][..n] == h[..n][i := e];
      CountUpdate(h[..n], i, e);
    }
  }

  lemma {:induction false} CountFull(h: seq<Entry>)
    ensures Count(h) == |h| <==> forall i :: 0 <= i < |h| ==> h[i].valid
    ensures Count(h) == 0 <==> forall i :: 0 <= i < |h| ==> !h[i].valid
  {
    if h != [] {
      CountFull(h[..|h| - 1]);
      assert forall i :: 0 <= i < |h| - 1 ==> h[..|h| - 1][i] == h[i];
    }
  }

  lemma {:induction false} CountAppend(h: seq<Entry>, k: seq<Entry>)
    requires forall i :: 0 <= i < |k| ==> !k[i].valid
    ensures Count(h + k) == Count(h)
  {
    if k == [] {
      assert h + k == h;
    } else {
      assert (h + k)[..|h + k| - 1] == h + k[..|k| - 1];
      CountAppend(h, k[..|k| - 1]);
    }
  }
}
