/**
 * The multi-version row (trusted/concurrency_control/row_mvcc.cpp): reads, prewrites, writes and
 * aborted prewrites against the bounded store, with the requests that wait for the one
 * outstanding prewrite. The ghost fields are the unbounded history the row stands for: every
 * version ever written, and every value handed to a reader or a committed writer.
 */
module Mvcc {
  import opened MvccStore
  import opened MvccReserve

  const UINT64_MAX: nat := 0xFFFF_FFFF_FFFF_FFFF

  datatype Kind = ReadReq | PrewriteReq

  /** ReqEntry */
  datatype Request = Request(valid: bool, kind: Kind, ts: nat)

  datatype Reply = Abort | Wait | Ok(value: Value)

  // ----- pending requests

  predicate DistinctPending(rs: seq<Request>) {
    forall i, j :: 0 <= i < j < |rs| && rs[i].valid && rs[j].valid ==> rs[i].ts != rs[j].ts
  }

  /** All pending requests lie strictly between `low` and the largest timestamp. */
  predicate PendingAbove(rs: seq<Request>, low: nat) {
    forall i :: 0 <= i < |rs| && rs[i].valid ==> low < rs[i].ts < UINT64_MAX
  }

  predicate NonePending(rs: seq<Request>) {
    forall i :: 0 <= i < |rs| ==> !rs[i].valid
  }

  ghost function Pending(rs: seq<Request>): set<Request> {
    set i | 0 <= i < |rs| && rs[i].valid :: rs[i]
  }

  /** The timestamp of the next pending prewrite among the first `n` requests. */
  function NextPrewrite(rs: seq<Request>, n: nat): (m: nat)
    requires n <= |rs|
    ensures m <= UINT64_MAX
  {
    if n == 0 then UINT64_MAX
    else
      var m := NextPrewrite(rs, n - 1);
      if rs[n - 1].valid && rs[n - 1].kind == PrewriteReq && rs[n - 1].ts < m then rs[n - 1].ts else m
  }

  /** It is the least one, and unique among the pending requests. */
  lemma {:induction false} NextPrewriteIsLeast(rs: seq<Request>, n: nat)
    requires n <= |rs|
    ensures var m := NextPrewrite(rs, n);
            && m <= UINT64_MAX
            && (forall i :: 0 <= i < n && rs[i].valid && rs[i].kind == PrewriteReq ==> m <= rs[i].ts)
            && (m < UINT64_MAX ==> exists i :: 0 <= i < n && rs[i].valid && rs[i].kind == PrewriteReq && rs[i].ts == m)
  {
    if n > 0 {
      NextPrewriteIsLeast(rs, n - 1);
    }
  }

  predicate IsNext(rs: seq<Request>, next: nat) {
    && next <= UINT64_MAX
    && (forall i :: 0 <= i < |rs| && rs[i].valid && rs[i].kind == PrewriteReq ==> next <= rs[i].ts)
    && (next < UINT64_MAX ==> exists i :: 0 <= i < |rs| && rs[i].valid && rs[i].kind == PrewriteReq && rs[i].ts == next)
  }

  method FindNext(rs: seq<Request>, ts: nat) returns (next: nat)
    requires PendingAbove(rs, ts) && ts < UINT64_MAX
    ensures next == NextPrewrite(rs, |rs|) && ts < next && IsNext(rs, next)
  {
    next := UINT64_MAX;
    var i := 0;
    while i < |rs|
      invariant 0 <= i <= |rs| && next == NextPrewrite(rs, i)
    {
      if rs[i].valid && rs[i].kind == PrewriteReq && rs[i].ts > ts && rs[i].ts < next {
        next := rs[i].ts;
      }
      i := i + 1;
    }
    NextPrewriteIsLeast(rs, |rs|);
  }

  /** A pending request after the buffer was updated up to the next prewrite. */
  function Answered(r: Request, next: nat): Request {
    if r.valid && r.ts <= next then r.(valid := false) else r
  }

  /** The timestamps of the first `n` requests that an update answers. */
  ghost function AnsweredTs(rs: seq<Request>, next: nat, n: nat): set<nat>
    requires n <= |rs|
  {
    set i | 0 <= i < n && rs[i].valid && rs[i].ts <= next :: rs[i].ts
  }

  lemma AnsweredTsNext(rs: seq<Request>, next: nat, n: nat)
    requires n < |rs|
    ensures AnsweredTs(rs, next, n + 1) == AnsweredTs(rs, next, n) + if rs[n].valid && rs[n].ts <= next then {rs[n].ts} else {}
  {
    var old', new' := AnsweredTs(rs, next, n), AnsweredTs(rs, next, n + 1);
    assert forall t :: t in old' ==> t in new';
  }

  lemma AnsweredOnce(rs: seq<Request>, next: nat, n: nat)
    requires n < |rs| && DistinctPending(rs) && IsNext(rs, next)
    ensures rs[n].valid ==> rs[n].ts !in AnsweredTs(rs, next, n)
    ensures rs[n].valid && rs[n].ts == next && next < UINT64_MAX ==> rs[n].kind == PrewriteReq
  {
  }

  /** The reads served once the replies were given, one of them perhaps to the prewrite at `next`. */
  ghost predicate IsJoined(before: map<nat, Value>, replies: map<nat, Value>, next: nat, served: map<nat, Value>) {
    && (forall t :: t in served <==> t in before || (t in replies && t != next))
    && (forall t :: t in served ==> served[t] == if t in replies && t != next then replies[t] else before[t])
  }

  /**
   * The answering loop after `n` requests: `now` are the requests left of `rs`, and the reads
   * answered with `v` joined those served `before`.
   */
  ghost predicate Answering(rs: seq<Request>, now: seq<Request>, before: map<nat, Value>, served: map<nat, Value>,
      replies: map<nat, Value>, next: nat, v: Value, n: nat) {
    && n <= |rs| == |now|
    && (forall j :: 0 <= j < n ==> now[j] == Answered(rs[j], next))
    && (forall j :: n <= j < |rs| ==> now[j] == rs[j])
    && (forall t :: t in replies <==> t in AnsweredTs(rs, next, n))
    && IsJoined(before, replies, next, served)
    && (forall t :: t in replies ==> replies[t] == v)
    && Keeps(before, served)
  }

  /** What was answered and what is served, as sets and maps. */
  lemma AnsweringMaps(rs: seq<Request>, now: seq<Request>, before: map<nat, Value>, served: map<nat, Value>,
      replies: map<nat, Value>, next: nat, v: Value, n: nat)
    requires Answering(rs, now, before, served, replies, next, v, n)
    ensures replies.Keys == AnsweredTs(rs, next, n) && served == before + (replies - {next})
  {
  }

  lemma AnsweringStart(rs: seq<Request>, served: map<nat, Value>, next: nat, v: Value)
    ensures Answering(rs, rs, served, served, map[], next, v, 0)
  {
  }

  lemma AnsweringSkip(rs: seq<Request>, now: seq<Request>, before: map<nat, Value>, served: map<nat, Value>,
      replies: map<nat, Value>, next: nat, v: Value, n: nat)
    requires Answering(rs, now, before, served, replies, next, v, n) && n < |rs| && !(rs[n].valid && rs[n].ts <= next)
    ensures Answering(rs, now, before, served, replies, next, v, n + 1)
  {
    AnsweredTsNext(rs, next, n);
  }

  lemma JoinedMore(before: map<nat, Value>, replies: map<nat, Value>, next: nat, served: map<nat, Value>, t: nat, v: Value)
    requires IsJoined(before, replies, next, served) && t != next && (t in served ==> served[t] == v)
    ensures IsJoined(before, replies[t := v], next, served[t := v]) && Keeps(served, served[t := v])
  {
  }

  lemma AnsweringRead(rs: seq<Request>, now: seq<Request>, before: map<nat, Value>, served: map<nat, Value>,
      replies: map<nat, Value>, next: nat, v: Value, n: nat)
    requires Answering(rs, now, before, served, replies, next, v, n) && n < |rs| && rs[n].valid && rs[n].ts < next
    requires rs[n].ts in served ==> served[rs[n].ts] == v
    ensures Answering(rs, now[n := now[n].(valid := false)], before, served[rs[n].ts := v], replies[rs[n].ts := v], next, v, n + 1)
  {
    AnsweredTsNext(rs, next, n);
    JoinedMore(before, replies, next, served, rs[n].ts, v);
  }

  lemma AnsweringPrewrite(rs: seq<Request>, now: seq<Request>, before: map<nat, Value>, served: map<nat, Value>,
      replies: map<nat, Value>, next: nat, v: Value, n: nat)
    requires Answering(rs, now, before, served, replies, next, v, n) && n < |rs| && rs[n].valid && rs[n].ts == next
    ensures Answering(rs, now[n := now[n].(valid := false)], before, served, replies[next := v], next, v, n + 1)
  {
    AnsweredTsNext(rs, next, n);
  }

  lemma AnsweringDone(rs: seq<Request>, now: seq<Request>, before: map<nat, Value>, served: map<nat, Value>,
      replies: map<nat, Value>, next: nat, v: Value)
    requires Answering(rs, now, before, served, replies, next, v, |rs|) && DistinctPending(rs) && PendingAbove(rs, 0) && IsNext(rs, next)
    ensures DistinctPending(now)
    ensures if next < UINT64_MAX then PendingAbove(now, next) else NonePending(now)
    ensures next in replies <==> next < UINT64_MAX
  {
  }

  // ----- served reads

  /** Every value handed out so far is still the youngest version below its reader. */
  ghost predicate ServedOK(served: map<nat, Value>, vs: map<nat, Value>, horizon: nat) {
    forall t :: t in served ==> t <= horizon && IsLatestBelow(vs, t, served[t])
  }

  /** What was handed out stays as it was. */
  predicate Keeps(before: map<nat, Value>, after: map<nat, Value>) {
    forall t :: t in before ==> t in after && after[t] == before[t]
  }

  /** The largest timestamp served, after more reads were. */
  predicate IsTop(before: nat, more: set<nat>, top: nat) {
    before <= top && (forall t :: t in more ==> t <= top) && (top == before || top in more)
  }

  lemma KeysMore(replies: map<nat, Value>, next: nat, t: nat, v: Value)
    ensures replies[t := v].Keys - {next} == (replies.Keys - {next}) + if t == next then {} else {t}
  {
    assert replies[t := v].Keys == replies.Keys + {t};
  }

  lemma TopStart(top: nat, next: nat)
    ensures var none: map<nat, Value> := map[]; IsTop(top, none.Keys - {next}, top)
  {
  }

  lemma TopMore(before: nat, more: set<nat>, top: nat, t: nat)
    requires IsTop(before, more, top)
    ensures IsTop(before, more + {t}, Max(top, t))
  {
  }

  function Max(a: nat, b: nat): nat { if a < b then b else a }

  lemma LatestIsUnique(vs: map<nat, Value>, t: nat, v: Value, w: Value)
    requires IsLatestBelow(vs, t, v) && IsLatestBelow(vs, t, w)
    ensures v == w
  {
    var k :| k in vs && k < t && vs[k] == v && forall j :: j in vs && j < t ==> j <= k;
    var l :| l in vs && l < t && vs[l] == w && forall j :: j in vs && j < t ==> j <= l;
    assert k <= l && l <= k;
  }

  lemma ServeMore(served: map<nat, Value>, vs: map<nat, Value>, horizon: nat, t: nat, v: Value)
    requires ServedOK(served, vs, horizon) && IsLatestBelow(vs, t, v)
    ensures ServedOK(served[t := v], vs, Max(horizon, t))
    ensures t in served ==> served[t] == v
  {
    if t in served {
      LatestIsUnique(vs, t, v, served[t]);
    }
  }

  /** A version above every served reader changes none of them. */
  lemma WriteAbove(served: map<nat, Value>, vs: map<nat, Value>, horizon: nat, t: nat, v: Value)
    requires ServedOK(served, vs, horizon) && horizon <= t && t !in vs
    ensures ServedOK(served, vs[t := v], t)
  {
    forall s | s in served
      ensures IsLatestBelow(vs[t := v], s, served[s])
    {
      var k :| k in vs && k < s && vs[k] == served[s] && forall j :: j in vs && j < s ==> j <= k;
      assert vs[t := v][k] == served[s];
    }
  }

  lemma LatestIsBelow(st: Store, vs: map<nat, Value>, pre: int, t: nat)
    requires Core(st, vs, pre) && st.latestWts < t
    ensures IsLatestBelow(vs, t, st.mem[st.latestRow])
  {
    LatestRow(st, vs, pre);
    assert st.latestWts in vs;
  }

  /** The searched slot, or `row`, holds the youngest version below `t`. */
  lemma BestIsLatestBelow(st: Store, vs: map<nat, Value>, pre: int, t: nat, i: int)
    requires Core(st, vs, pre) && st.oldestWts < t && IsBest(st.hist, t, i)
    ensures i != -1 ==> 0 <= st.hist[i].row < |st.mem|
    ensures IsLatestBelow(vs, t, st.mem[if i == -1 then st.row else st.hist[i].row])
  {
    if i != -1 {
      assert SlotOK(st, vs, i);
    }
    var k := if i == -1 then st.oldestWts else st.hist[i].ts;
    forall j | j in vs && j < t
      ensures j <= k
    {
      if st.oldestWts < j {
        assert Stored(st, j);
        var s :| 0 <= s < |st.hist| && st.hist[s].valid && st.hist[s].ts == j;
      }
    }
    assert k in vs;
  }

  /** The store, the outstanding prewrite (slot `pre`, or -1) and what was served. */
  ghost predicate StoreOK(st: Store, vs: map<nat, Value>, served: map<nat, Value>, maxServed: nat, threads: nat, pre: int, preTs: nat) {
    && Core(st, vs, pre)
    && (|st.hist| == 4 || 4 <= |st.hist| < 2 * threads)
    && ServedOK(served, vs, Max(maxServed, st.latestWts))
    && (pre != -1 ==>
          && st.latestWts < preTs < UINT64_MAX && maxServed <= preTs
          && st.hist[pre].ts == preTs
          && st.mem[st.hist[pre].row] == vs[st.latestWts])
  }

  lemma StoreParts(o: Store, vs: map<nat, Value>, served: map<nat, Value>, maxServed: nat, threads: nat, preTs: nat)
    requires StoreOK(o, vs, served, maxServed, threads, -1, preTs)
    ensures Core(o, vs, -1) && |o.hist| >= 4
  {
  }

  /** A slot reserved at `ts` and filled with the latest version. */
  lemma ReservedStore(o: Store, r: Store, vs: map<nat, Value>, served: map<nat, Value>, maxServed: nat, threads: nat,
      preTs: nat, idx: nat, ts: nat)
    requires StoreOK(o, vs, served, maxServed, threads, -1, preTs) && Core(r, vs, idx) && r.hist[idx].ts == ts
    requires r.latestWts == o.latestWts < ts < UINT64_MAX && maxServed <= ts
    requires |r.hist| == |o.hist| || (|r.hist| == 2 * |o.hist| && |o.hist| < threads)
    ensures 0 <= r.latestRow < |r.mem| && idx < |r.hist| && 0 <= r.hist[idx].row < |r.mem| && r.latestWts in vs
    ensures r.mem[r.latestRow] == vs[r.latestWts]
    ensures StoreOK(r.(mem := r.mem[r.hist[idx].row := r.mem[r.latestRow]]), vs, served, maxServed, threads, idx, ts)
  {
    LatestRow(r, vs, idx);
    BufferCore(r, vs, idx, r.mem[r.latestRow]);
  }

  /** A slot is reserved at `ts` and filled with the latest version. */
  method ReserveCopy(o: Store, ts: nat, minTs: nat, threads: nat,
      ghost vs: map<nat, Value>, ghost served: map<nat, Value>, ghost maxServed: nat, ghost preTs: nat)
      returns (r: Store, idx: nat, v: Value)
    requires StoreOK(o, vs, served, maxServed, threads, -1, preTs)
    requires o.latestWts < ts < UINT64_MAX && maxServed <= ts
    ensures StoreOK(r, vs, served, maxServed, threads, idx, ts)
    ensures r.latestWts == o.latestWts && r.latestWts in vs && v == vs[r.latestWts]
    ensures Recycles(vs, o.oldestWts, r.oldestWts, minTs, threads)
  {
    StoreParts(o, vs, served, maxServed, threads, preTs);
    r, idx := ReserveRow(o, ts, minTs, threads, vs);
    ReservedStore(o, r, vs, served, maxServed, threads, preTs, idx, ts);
    v := r.mem[r.latestRow];
    r := r.(mem := r.mem[r.hist[idx].row := v]);
  }

  lemma CommitServed(st: Store, vs: map<nat, Value>, served: map<nat, Value>, maxServed: nat, pre: nat, ts: nat, v: Value)
    requires Core(st, vs, pre) && ServedOK(served, vs, Max(maxServed, st.latestWts)) && st.latestWts < ts && maxServed <= ts
    ensures ts !in vs && Keeps(served, served[ts := vs[st.latestWts]])
    ensures ServedOK(served[ts := vs[st.latestWts]], vs[ts := v], ts)
  {
    var base := vs[st.latestWts];
    LatestRow(st, vs, pre);
    LatestIsBelow(st, vs, pre, ts);
    ServeMore(served, vs, Max(maxServed, st.latestWts), ts, base);
    WriteAbove(served[ts := base], vs, ts, ts, v);
  }

  lemma CommitStore(st: Store, vs: map<nat, Value>, served: map<nat, Value>, maxServed: nat, threads: nat, pre: nat, ts: nat, v: Value)
    requires StoreOK(st, vs, served, maxServed, threads, pre, ts)
    ensures ts !in vs && Keeps(served, served[ts := vs[st.latestWts]])
    ensures StoreOK(Installed(st.(mem := st.mem[st.hist[pre].row := v]), pre, ts), vs[ts := v],
        served[ts := vs[st.latestWts]], maxServed, threads, -1, ts)
  {
    CommitServed(st, vs, served, maxServed, pre, ts, v);
    BufferCore(st, vs, pre, v);
    InstalledCore(st.(mem := st.mem[st.hist[pre].row := v]), vs, pre, ts);
  }

  /** What the search may pick: a version below `t`, by its slot or in `row`. */
  lemma PickedIsBelow(st: Store, vs: map<nat, Value>, pre: int, t: nat, i: int)
    requires Core(st, vs, pre) && st.oldestWts < t
    requires i == -1 || (0 <= i < |st.hist| && st.hist[i].valid && st.hist[i].ts < t)
    ensures i != -1 ==> 0 <= st.hist[i].row < |st.mem|
    ensures IsBelow(vs, t, st.mem[if i == -1 then st.row else st.hist[i].row])
  {
    if i != -1 {
      assert SlotOK(st, vs, i);
    }
    var k := if i == -1 then st.oldestWts else st.hist[i].ts;
    assert k in vs && k < t;
  }

  // ----- the row

  class RowMvcc {
    var st: Store
    var requests: seq<Request>
    var existsPrewrite: bool
    var prewriteTs: nat
    var prewriteId: nat
    var maxServedRts: nat
    const threadCnt: nat
    ghost var versions: map<nat, Value>
    ghost var served: map<nat, Value>

    ghost predicate StoreValid()
      reads this
    {
      StoreOK(st, versions, served, maxServedRts, threadCnt, if existsPrewrite then prewriteId else -1, prewriteTs)
    }

    ghost predicate Valid()
      reads this
    {
      && StoreValid()
      && |requests| >= 1 && DistinctPending(requests)
      && (if existsPrewrite then PendingAbove(requests, prewriteTs) else NonePending(requests))
    }

    /** A timestamp that no version, pending request or prewrite has. */
    ghost predicate Fresh(ts: nat)
      reads this
    {
      && 0 < ts < UINT64_MAX && ts !in versions
      && !(existsPrewrite && prewriteTs == ts)
      && (forall i :: 0 <= i < |requests| && requests[i].valid ==> requests[i].ts != ts)
    }

    constructor (initial: Value, threads: nat)
      ensures Valid() && versions == map[0 := initial] && served == map[] && !existsPrewrite
      ensures threadCnt == threads && NonePending(requests) && st.latestWts == st.oldestWts == maxServedRts == 0
    {
      var h := seq(4, _ => Entry(false, false, 0, NULL));
      CountFull(h);
      st := Store([initial], 0, 0, 0, 0, h, 0);
      requests := seq(4, _ => Request(false, ReadReq, 0));
      existsPrewrite, prewriteTs, prewriteId, maxServedRts := false, 0, 0, 0;
      threadCnt := threads;
      versions, served := map[0 := initial], map[];
    }

    /** buffer_req: the request is added, in a list twice as long if need be. */
    method BufferReq(kind: Kind, ts: nat)
      requires |requests| >= 1 && DistinctPending(requests)
      requires forall i :: 0 <= i < |requests| && requests[i].valid ==> requests[i].ts != ts
      modifies this`requests
      ensures |requests| >= 1 && DistinctPending(requests)
      ensures Pending(requests) == old(Pending(requests)) + {Request(true, kind, ts)}
      ensures forall low: nat :: old(PendingAbove(requests, low)) && low < ts < UINT64_MAX ==> PendingAbove(requests, low)
    {
      var i := 0;
      ghost var rs := requests;
      while i < |requests|
        invariant 0 <= i <= |requests| && requests == rs
        invariant forall j :: 0 <= j < i ==> requests[j].valid
      {
        if !requests[i].valid {
          requests := requests[i := Request(true, kind, ts)];
          AddedPending(rs, i, Request(true, kind, ts));
          return;
        }
        i := i + 1;
      }
      requests := requests + seq(|requests|, _ => Request(false, ReadReq, 0));
      ghost var ds := requests;
      requests := requests[i := Request(true, kind, ts)];
      AddedPending(ds, i, Request(true, kind, ts));
      assert Pending(ds) == Pending(rs) by {
        forall r | r in Pending(rs) ensures r in Pending(ds) {
          var j :| 0 <= j < |rs| && rs[j].valid && rs[j] == r;
          assert ds[j] == r;
        }
      }
    }

    /** The search for a version between the oldest and the latest: some version below `ts`, and up to 2^32 the right one. */
    method Search(ts: nat) returns (v: Value)
      requires StoreValid() && st.oldestWts < ts
      ensures IsBelow(versions, ts, v)
      ensures ts <= 0x1_0000_0000 ==> IsLatestBelow(versions, ts, v)
    {
      ghost var pre := if existsPrewrite then prewriteId else -1;
      PositiveTs(st, versions, pre);
      PickBelow(st.hist, ts, |st.hist|);
      var theI := FindVersion(st.hist, ts);
      PickedIsBelow(st, versions, pre, ts, theI);
      if ts <= 0x1_0000_0000 {
        PickBest(st.hist, ts, |st.hist|);
        assert st.hist[..|st.hist|] == st.hist;
        BestIsLatestBelow(st, versions, pre, ts, theI);
      }
      v := st.mem[if theI == -1 then st.row else st.hist[theI].row];
    }

    /** R_REQ */
    method Read(ts: nat) returns (r: Reply)
      requires Valid() && Fresh(ts)
      modifies this`requests, this`maxServedRts, this`served
      ensures Valid()
      ensures r == Abort <==> ts < st.oldestWts
      ensures r == Wait <==> existsPrewrite && prewriteTs < ts
      ensures r.Ok? ==>
                IsBelow(versions, ts, r.value) && (ts <= 0x1_0000_0000 || ts > st.latestWts ==> IsLatestBelow(versions, ts, r.value))
      ensures served == if r.Ok? && IsLatestBelow(versions, ts, r.value) then old(served)[ts := r.value] else old(served)
      ensures maxServedRts == if r.Ok? && ts > st.latestWts then Max(old(maxServedRts), ts) else old(maxServedRts)
      ensures Pending(requests) == old(Pending(requests)) + if r == Wait then {Request(true, ReadReq, ts)} else {}
      ensures Keeps(old(served), served)
    {
      assert st.oldestWts <= st.latestWts;
      if ts < st.oldestWts {
        r := Abort;
      } else if ts > st.latestWts {
        if existsPrewrite && prewriteTs < ts {
          r := Wait;
          BufferReq(ReadReq, ts);
        } else {
          r := Ok(st.mem[st.latestRow]);
          LatestIsBelow(st, versions, if existsPrewrite then prewriteId else -1, ts);
          ServeMore(served, versions, Max(maxServedRts, st.latestWts), ts, r.value);
          if ts > maxServedRts {
            maxServedRts := ts;
          }
          served := served[ts := r.value];
        }
      } else {
        var v := Search(ts);
        r := Ok(v);
        if IsLatestBelow(versions, ts, v) {
          ServeMore(served, versions, Max(maxServedRts, st.latestWts), ts, v);
          served := served[ts := v];
        }
      }
    }

    /** The latest version's value. */
    ghost function Newest(): Value
      reads this
    {
      if st.latestWts in versions then versions[st.latestWts] else 0
    }

    /** A slot is reserved at `ts` and filled with the latest version. */
    method Reserve(ts: nat, minTs: nat) returns (v: Value)
      requires StoreValid() && !existsPrewrite
      requires st.latestWts < ts < UINT64_MAX && maxServedRts <= ts
      modifies this`st, this`existsPrewrite, this`prewriteTs, this`prewriteId
      ensures StoreValid() && existsPrewrite && prewriteTs == ts
      ensures st.latestWts == old(st.latestWts) && v == Newest()
      ensures Recycles(versions, old(st.oldestWts), st.oldestWts, minTs, threadCnt)
    {
      var r, idx;
      r, idx, v := ReserveCopy(st, ts, minTs, threadCnt, versions, served, maxServedRts, prewriteTs);
      st, existsPrewrite, prewriteId, prewriteTs := r, true, idx, ts;
    }

    /** P_REQ */
    method Prewrite(ts: nat, minTs: nat) returns (r: Reply)
      requires Valid() && Fresh(ts)
      modifies this`st, this`existsPrewrite, this`prewriteTs, this`prewriteId, this`requests
      ensures Valid()
      ensures r == Abort <==> old(ts < st.latestWts || ts < maxServedRts || (existsPrewrite && prewriteTs > ts))
      ensures r == Wait <==> old(existsPrewrite && prewriteTs < ts)
      ensures r.Ok? ==> existsPrewrite && prewriteTs == ts && IsLatestBelow(versions, ts, r.value) && r.value == Newest()
      ensures !r.Ok? ==> st == old(st) && existsPrewrite == old(existsPrewrite) && prewriteTs == old(prewriteTs)
      ensures st.latestWts == old(st.latestWts) && Recycles(versions, old(st.oldestWts), st.oldestWts, minTs, threadCnt)
      ensures Pending(requests) == old(Pending(requests)) + if r == Wait then {Request(true, PrewriteReq, ts)} else {}
    {
      if ts < st.latestWts || ts < maxServedRts || (existsPrewrite && prewriteTs > ts) {
        r := Abort;
      } else if existsPrewrite {
        r := Wait;
        BufferReq(PrewriteReq, ts);
      } else {
        assert st.latestWts in versions;
        var v := Reserve(ts, minTs);
        r := Ok(v);
      }
    }

    /** One pending read is answered with the latest version. */
    method AnswerRead(i: nat, ghost next: nat) returns (v: Value)
      requires StoreValid() && i < |requests| && requests[i].valid
      requires st.latestWts < requests[i].ts < next && maxServedRts <= next
      requires existsPrewrite ==> prewriteTs == next
      modifies this`requests, this`maxServedRts, this`served
      ensures StoreValid() && maxServedRts <= next && maxServedRts == Max(old(maxServedRts), old(requests[i].ts))
      ensures v == Newest()
      ensures requests == old(requests[i := requests[i].(valid := false)])
      ensures served == old(served)[old(requests[i].ts) := v]
      ensures old(requests[i].ts) in old(served) ==> old(served[requests[i].ts]) == v
    {
      ghost var pre := if existsPrewrite then prewriteId else -1;
      var ts := requests[i].ts;
      v := st.mem[st.latestRow];
      LatestRow(st, versions, pre);
      LatestIsBelow(st, versions, pre, ts);
      ServeMore(served, versions, Max(maxServedRts, st.latestWts), ts, v);
      if ts > maxServedRts {
        maxServedRts := ts;
      }
      requests := requests[i := requests[i].(valid := false)];
      served := served[ts := v];
    }

    /** One round of the answering loop, on a read below the next prewrite. */
    method AnswerOneRead(ghost rs: seq<Request>, ghost before: map<nat, Value>, ghost top: nat, ghost next: nat,
        replies: map<nat, Value>, i: nat) returns (more: map<nat, Value>)
      requires StoreValid() && i < |rs| && Answering(rs, requests, before, served, replies, next, Newest(), i)
      requires existsPrewrite <==> next in replies
      requires existsPrewrite ==> prewriteTs == next
      requires IsTop(top, replies.Keys - {next}, maxServedRts)
      requires rs[i].valid && st.latestWts < rs[i].ts < next && maxServedRts <= next
      modifies this`requests, this`maxServedRts, this`served
      ensures StoreValid() && existsPrewrite == old(existsPrewrite) && maxServedRts <= next
      ensures IsTop(top, more.Keys - {next}, maxServedRts)
      ensures Answering(rs, requests, before, served, more, next, Newest(), i + 1)
      ensures existsPrewrite <==> next in more
      ensures existsPrewrite ==> prewriteTs == next
    {
      ghost var now, was := requests, served;
      assert requests[i] == rs[i];
      var v := AnswerRead(i, next);
      AnsweringRead(rs, now, before, was, replies, next, v, i);
      more := replies[requests[i].ts := v];
      TopMore(top, replies.Keys - {next}, old(maxServedRts), rs[i].ts);
      KeysMore(replies, next, rs[i].ts, v);
    }

    /** The next prewrite is taken off the list and its reply added. */
    method Dequeue(ghost rs: seq<Request>, ghost before: map<nat, Value>, ghost top: nat, next: nat,
        replies: map<nat, Value>, i: nat, v: Value) returns (more: map<nat, Value>)
      requires i < |rs| && rs[i].valid && rs[i].ts == next && Answering(rs, requests, before, served, replies, next, v, i)
      requires IsTop(top, replies.Keys - {next}, maxServedRts)
      modifies this`requests
      ensures next in more && IsTop(top, more.Keys - {next}, maxServedRts)
      ensures Answering(rs, requests, before, served, more, next, v, i + 1)
    {
      AnsweringPrewrite(rs, requests, before, served, replies, next, v, i);
      KeysMore(replies, next, next, v);
      requests := requests[i := requests[i].(valid := false)];
      more := replies[next := v];
    }

    /** One round of the answering loop, on the next prewrite. */
    method AnswerOnePrewrite(ghost rs: seq<Request>, ghost before: map<nat, Value>, ghost top: nat, next: nat,
        replies: map<nat, Value>, i: nat, minTs: nat) returns (more: map<nat, Value>)
      requires StoreValid() && i < |rs| && Answering(rs, requests, before, served, replies, next, Newest(), i)
      requires IsTop(top, replies.Keys - {next}, maxServedRts)
      requires rs[i].valid && st.latestWts < rs[i].ts == next < UINT64_MAX && !existsPrewrite && maxServedRts <= next
      modifies this`requests, this`st, this`existsPrewrite, this`prewriteTs, this`prewriteId
      ensures StoreValid() && st.latestWts == old(st.latestWts) && existsPrewrite && prewriteTs == next && next in more
      ensures Recycles(versions, old(st.oldestWts), st.oldestWts, minTs, threadCnt)
      ensures IsTop(top, more.Keys - {next}, maxServedRts)
      ensures Answering(rs, requests, before, served, more, next, Newest(), i + 1)
    {
      var v := Reserve(next, minTs);
      more := Dequeue(rs, before, top, next, replies, i, v);
    }

    /** The oldest version kept moves only with a reservation. */
    ghost predicate OldestFrom(from: nat, minTs: nat)
      reads this
    {
      if existsPrewrite then Recycles(versions, from, st.oldestWts, minTs, threadCnt) else st.oldestWts == from
    }

    /** The answering loop after `i` requests. */
    ghost predicate Round(rs: seq<Request>, before: map<nat, Value>, top: nat, next: nat, replies: map<nat, Value>, i: nat)
      reads this
    {
      && StoreValid() && Answering(rs, requests, before, served, replies, next, Newest(), i)
      && (existsPrewrite <==> next in replies) && (existsPrewrite ==> prewriteTs == next)
      && maxServedRts <= next && IsTop(top, replies.Keys - {next}, maxServedRts)
    }

    /** One round of the answering loop. */
    method AnswerOne(ghost rs: seq<Request>, ghost before: map<nat, Value>, ghost top: nat, ghost from: nat, next: nat,
        replies: map<nat, Value>, i: nat, minTs: nat) returns (more: map<nat, Value>)
      requires i < |rs| && Round(rs, before, top, next, replies, i) && OldestFrom(from, minTs)
      requires DistinctPending(rs) && PendingAbove(rs, st.latestWts) && IsNext(rs, next)
      modifies this`requests, this`maxServedRts, this`served, this`st, this`existsPrewrite, this`prewriteTs, this`prewriteId
      ensures st.latestWts == old(st.latestWts) && OldestFrom(from, minTs)
      ensures |requests| == old(|requests|) && Round(rs, before, top, next, more, i + 1)
    {
      AnsweredOnce(rs, next, i);
      more := replies;
      assert requests[i] == rs[i];
      if requests[i].valid && requests[i].kind == ReadReq && requests[i].ts < next {
        more := AnswerOneRead(rs, before, top, next, replies, i);
      } else if requests[i].valid && requests[i].ts == next {
        assert requests[i].kind == PrewriteReq;
        more := AnswerOnePrewrite(rs, before, top, next, replies, i, minTs);
      } else {
        AnsweringSkip(rs, requests, before, served, replies, next, Newest(), i);
      }
    }

    /**
     * update_buffer, after the write or the aborted prewrite at `ts`: answers the pending reads
     * up to the next pending prewrite, and that prewrite.
     */
    method UpdateBuffer(ts: nat, minTs: nat) returns (replies: map<nat, Value>)
      requires StoreValid() && !existsPrewrite && |requests| >= 1
      requires DistinctPending(requests) && PendingAbove(requests, ts)
      requires st.latestWts <= ts && maxServedRts <= ts < UINT64_MAX
      modifies this`requests, this`maxServedRts, this`served, this`st, this`existsPrewrite, this`prewriteTs, this`prewriteId
      ensures Valid() && st.latestWts == old(st.latestWts) && OldestFrom(old(st.oldestWts), minTs)
      ensures var next := NextPrewrite(old(requests), old(|requests|));
              && (existsPrewrite <==> next < UINT64_MAX) && (existsPrewrite ==> prewriteTs == next)
              && IsTop(old(maxServedRts), replies.Keys - {next}, maxServedRts)
              && Answering(old(requests), requests, old(served), served, replies, next, Newest(), |requests|)
    {
      ghost var rs := requests;
      var next := FindNext(requests, ts);
      replies := AnswerAll(next, minTs);
      AnsweringDone(rs, requests, old(served), served, replies, next, Newest());
    }

    /** The answering loop. */
    method AnswerAll(next: nat, minTs: nat) returns (replies: map<nat, Value>)
      requires StoreValid() && !existsPrewrite && IsNext(requests, next) && maxServedRts <= next
      requires DistinctPending(requests) && PendingAbove(requests, st.latestWts)
      modifies this`requests, this`maxServedRts, this`served, this`st, this`existsPrewrite, this`prewriteTs, this`prewriteId
      ensures StoreValid() && st.latestWts == old(st.latestWts) && OldestFrom(old(st.oldestWts), minTs)
      ensures existsPrewrite <==> next in replies
      ensures existsPrewrite ==> prewriteTs == next
      ensures IsTop(old(maxServedRts), replies.Keys - {next}, maxServedRts)
      ensures |requests| == old(|requests|) && Answering(old(requests), requests, old(served), served, replies, next, Newest(), |requests|)
    {
      ghost var rs := requests;
      AnsweringStart(rs, served, next, Newest());
      TopStart(maxServedRts, next);
      replies := AnswerFrom(rs, served, maxServedRts, next, minTs);
    }

    method AnswerFrom(ghost rs: seq<Request>, ghost before: map<nat, Value>, ghost top: nat, next: nat, minTs: nat)
        returns (replies: map<nat, Value>)
      requires |requests| == |rs| && Round(rs, before, top, next, map[], 0) && !existsPrewrite
      requires DistinctPending(rs) && PendingAbove(rs, st.latestWts) && IsNext(rs, next)
      modifies this`requests, this`maxServedRts, this`served, this`st, this`existsPrewrite, this`prewriteTs, this`prewriteId
      ensures |requests| == |rs| && Round(rs, before, top, next, replies, |rs|)
      ensures st.latestWts == old(st.latestWts) && OldestFrom(old(st.oldestWts), minTs)
    {
      replies := map[];
      ghost var latest, oldest := st.latestWts, st.oldestWts;
      var i, n := 0, |requests|;
      while i < n
        invariant 0 <= i <= n == |rs| == |requests| && Round(rs, before, top, next, replies, i)
        invariant st.latestWts == latest && OldestFrom(oldest, minTs)
        decreases n - i
      {
        replies := AnswerOne(rs, before, top, oldest, next, replies, i, minTs);
        i := i + 1;
      }
    }

    /**
     * W_REQ by the transaction of the outstanding prewrite, whose buffer now holds `v`. Its base,
     * the version it was given at the prewrite, is still the youngest below `ts`.
     */
    method Write(ts: nat, v: Value, minTs: nat) returns (replies: map<nat, Value>)
      requires Valid() && existsPrewrite && ts == prewriteTs
      modifies this
      ensures Valid()
      ensures versions == old(versions)[ts := v] && old(ts !in versions) && st.latestWts == ts && OldestFrom(old(st.oldestWts), minTs)
      ensures var next := NextPrewrite(old(requests), old(|requests|));
              && (existsPrewrite <==> next < UINT64_MAX) && (existsPrewrite ==> prewriteTs == next)
              && IsTop(old(maxServedRts), replies.Keys - {next}, maxServedRts)
              && Answering(old(requests), requests, old(served)[ts := old(versions[st.latestWts])], served, replies, next, v, |requests|)
      ensures Keeps(old(served), served)
    {
      Commit(ts, v);
      replies := UpdateBuffer(ts, minTs);
    }

    /** The first half of W_REQ: the version is installed, no request is answered yet. */
    method Commit(ts: nat, v: Value)
      requires Valid() && existsPrewrite && ts == prewriteTs
      modifies this`st, this`existsPrewrite, this`versions, this`served
      ensures StoreValid() && !existsPrewrite
      ensures versions == old(versions)[ts := v] && old(ts !in versions) && st.latestWts == ts && st.oldestWts == old(st.oldestWts)
      ensures served == old(served)[ts := old(versions[st.latestWts])]
      ensures Keeps(old(served), served)
    {
      CommitStore(st, versions, served, maxServedRts, threadCnt, prewriteId, ts, v);
      ghost var base := versions[st.latestWts];
      st := st.(mem := st.mem[st.hist[prewriteId].row := v]);
      st := Installed(st, prewriteId, ts);
      existsPrewrite := false;
      versions := versions[ts := v];
      served := served[ts := base];
    }

    /** XP_REQ: the prewrite is dropped and no version is added. */
    method AbortPrewrite(ts: nat, minTs: nat) returns (replies: map<nat, Value>)
      requires Valid() && existsPrewrite && ts == prewriteTs
      modifies this`requests, this`maxServedRts, this`served, this`st, this`existsPrewrite, this`prewriteTs, this`prewriteId
      ensures Valid() && st.latestWts == old(st.latestWts) && OldestFrom(old(st.oldestWts), minTs)
      ensures var next := NextPrewrite(old(requests), old(|requests|));
              && (existsPrewrite <==> next < UINT64_MAX) && (existsPrewrite ==> prewriteTs == next)
              && IsTop(old(maxServedRts), replies.Keys - {next}, maxServedRts)
              && Answering(old(requests), requests, old(served), served, replies, next, versions[st.latestWts], |requests|)
      ensures Keeps(old(served), served)
    {
      DroppedCore(st, versions, prewriteId);
      st := Dropped(st, prewriteId);
      existsPrewrite := false;
      replies := UpdateBuffer(ts, minTs);
    }

    /** The invariant noted at row_mvcc.h:44, and the debug checks of `access`. */
    lemma RequestsAboveHistory(i: nat, j: nat)
      requires Valid() && i < |requests| && requests[i].valid && j < |st.hist| && (st.hist[j].valid || st.hist[j].reserved)
      ensures st.hist[j].ts < requests[i].ts && st.latestWts < requests[i].ts && existsPrewrite && prewriteTs < requests[i].ts
    {
      assert SlotOK(st, versions, j);
    }
  }

  lemma AddedPending(rs: seq<Request>, i: nat, r: Request)
    requires i < |rs| && !rs[i].valid && r.valid
    ensures Pending(rs[i := r]) == Pending(rs) + {r}
  {
    var ns := rs[i := r];
    forall q | q in Pending(rs) + {r}
      ensures q in Pending(ns)
    {
      if q == r {
        assert ns[i] == q;
      } else {
        var j :| 0 <= j < |rs| && rs[j].valid && rs[j] == q;
        assert ns[j] == q;
      }
    }
  }
}
