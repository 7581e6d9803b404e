/**
 * Whole runs of the multi-version row against a specification without a version store: a map of
 * all versions ever written, the values served, and the requests that wait. Any list of requests
 * runs as the specification says, reply by reply, and every value handed out is right for ever.
 */
module MvccRun {
  import opened Wrappers
  import opened MvccStore
  import opened MvccReserve
  import opened Mvcc

  /** A request to the row; a write or an abort is the outstanding prewrite's. */
  datatype Op = OpRead(ts: nat) | OpPrewrite(ts: nat, minTs: nat) | OpWrite(v: Value, minTs: nat) | OpAbort(minTs: nat)

  /** What the caller is told; a request that nobody may make in the current state is skipped. */
  datatype Out = Skipped | Said(r: Reply) | Replied(ts: nat, replies: map<nat, Value>)

  // ----- the specification

  datatype Model = Model(
    versions: map<nat, Value>, latest: nat, oldest: nat, served: map<nat, Value>, maxServed: nat,
    prewrite: Option<nat>, pending: set<Request>, threads: nat)

  function Start(initial: Value, threads: nat): Model {
    Model(map[0 := initial], 0, 0, map[], 0, None, {}, threads)
  }

  /** No version, pending request or prewrite has this timestamp. */
  ghost predicate NewTs(m: Model, ts: nat) {
    0 < ts < UINT64_MAX && ts !in m.versions && m.prewrite != Some(ts) && forall r :: r in m.pending ==> r.ts != ts
  }

  predicate Behind(m: Model, ts: nat) {
    m.prewrite.Some? && m.prewrite.value < ts
  }

  /** Refused exactly below the oldest version kept, waiting exactly behind a prewrite, else the version below the reader. */
  ghost predicate ReadStep(m: Model, ts: nat, r: Reply, m': Model) {
    match r
    case Abort => ts < m.oldest && m' == m
    case Wait => ts >= m.oldest && Behind(m, ts) && m' == m.(pending := m.pending + {Request(true, ReadReq, ts)})
    case Ok(v) =>
      && ts >= m.oldest && !Behind(m, ts)
      && IsBelow(m.versions, ts, v) && (ts <= 0x1_0000_0000 || ts > m.latest ==> IsLatestBelow(m.versions, ts, v))
      && m' == m.(served := if IsLatestBelow(m.versions, ts, v) then m.served[ts := v] else m.served,
                  maxServed := if ts > m.latest then Max(m.maxServed, ts) else m.maxServed)
  }

  /**
   * Refused exactly when a younger version, served read or prewrite exists. A reservation may
   * recycle versions.
   */
  ghost predicate PrewriteStep(m: Model, ts: nat, minTs: nat, r: Reply, m': Model) {
    var late := ts < m.latest || ts < m.maxServed || (m.prewrite.Some? && m.prewrite.value > ts);
    match r
    case Abort => late && m' == m
    case Wait => !late && Behind(m, ts) && m' == m.(pending := m.pending + {Request(true, PrewriteReq, ts)})
    case Ok(v) =>
      && !late && m.prewrite == None && m.latest in m.versions && v == m.versions[m.latest] && IsLatestBelow(m.versions, ts, v)
      && Recycles(m.versions, m.oldest, m'.oldest, minTs, m.threads) && m' == m.(prewrite := Some(ts), oldest := m'.oldest)
  }

  /** The timestamp of the first pending prewrite. */
  ghost predicate IsFirst(pending: set<Request>, next: nat) {
    && next <= UINT64_MAX && (forall r :: r in pending && r.kind == PrewriteReq ==> next <= r.ts)
    && (next < UINT64_MAX ==> exists r :: r in pending && r.kind == PrewriteReq && r.ts == next)
  }

  /** `m` with its pending requests answered with `v` up to the first prewrite, which is now outstanding. */
  ghost predicate AnswersUpTo(m: Model, v: Value, minTs: nat, next: nat, replies: map<nat, Value>, m': Model) {
    && IsFirst(m.pending, next)
    && replies.Keys == (set r | r in m.pending && r.ts <= next :: r.ts)
    && (forall t :: t in replies ==> replies[t] == v)
    && (if next < UINT64_MAX then Recycles(m.versions, m.oldest, m'.oldest, minTs, m.threads) else m'.oldest == m.oldest)
    && IsTop(m.maxServed, replies.Keys - {next}, m'.maxServed)
    && m' == m.(pending := (set r | r in m.pending && r.ts > next),
                prewrite := if next < UINT64_MAX then Some(next) else None,
                served := m.served + (replies - {next}),
                oldest := m'.oldest, maxServed := m'.maxServed)
  }

  ghost predicate AnswerStep(m: Model, v: Value, minTs: nat, replies: map<nat, Value>, m': Model) {
    exists next: nat :: AnswersUpTo(m, v, minTs, next, replies, m')
  }

  /** The version is added, with the value it was derived from on record. */
  ghost function Written1(m: Model, v: Value): Model
    requires m.prewrite.Some? && m.latest in m.versions
  {
    var ts := m.prewrite.value;
    m.(versions := m.versions[ts := v], latest := ts, prewrite := None, served := m.served[ts := m.versions[m.latest]])
  }

  ghost predicate Step(m: Model, op: Op, out: Out, m': Model) {
    match op
    case OpRead(ts) => if NewTs(m, ts) then out.Said? && ReadStep(m, ts, out.r, m') else out == Skipped && m' == m
    case OpPrewrite(ts, minTs) => if NewTs(m, ts) then out.Said? && PrewriteStep(m, ts, minTs, out.r, m') else out == Skipped && m' == m
    case OpWrite(v, minTs) =>
      if m.prewrite == None then out == Skipped && m' == m
      else
        && m.latest in m.versions && out.Replied? && Some(out.ts) == m.prewrite
        && AnswerStep(Written1(m, v), v, minTs, out.replies, m')
    case OpAbort(minTs) =>
      if m.prewrite == None then out == Skipped && m' == m
      else
        && m.latest in m.versions && out.Replied? && Some(out.ts) == m.prewrite
        && AnswerStep(m.(prewrite := None), m.versions[m.latest], minTs, out.replies, m')
  }

  // ----- the row takes such steps

  ghost function ModelOf(row: RowMvcc): Model
    reads row
  {
    Model(row.versions, row.st.latestWts, row.st.oldestWts, row.served, row.maxServedRts,
          if row.existsPrewrite then Some(row.prewriteTs) else None, Pending(row.requests), row.threadCnt)
  }

  lemma NewIsFresh(row: RowMvcc, ts: nat)
    ensures NewTs(ModelOf(row), ts) <==> row.Fresh(ts)
  {
    var rs := row.requests;
    assert forall i :: 0 <= i < |rs| && rs[i].valid ==> rs[i] in Pending(rs);
  }

  lemma FirstIsNext(rs: seq<Request>)
    ensures IsFirst(Pending(rs), NextPrewrite(rs, |rs|))
  {
    NextPrewriteIsLeast(rs, |rs|);
    var next := NextPrewrite(rs, |rs|);
    if next < UINT64_MAX {
      var i :| 0 <= i < |rs| && rs[i].valid && rs[i].kind == PrewriteReq && rs[i].ts == next;
      assert rs[i] in Pending(rs);
    }
  }

  lemma LeftPending(rs: seq<Request>, now: seq<Request>, next: nat)
    requires |now| == |rs| && forall j :: 0 <= j < |rs| ==> now[j] == Answered(rs[j], next)
    ensures Pending(now) == (set r | r in Pending(rs) && r.ts > next)
    ensures AnsweredTs(rs, next, |rs|) == set r | r in Pending(rs) && r.ts <= next :: r.ts
  {
    forall r | r in Pending(rs) && r.ts > next
      ensures r in Pending(now)
    {
      var i :| 0 <= i < |rs| && rs[i].valid && rs[i] == r;
      assert now[i] == r;
    }
    forall r | r in Pending(now)
      ensures r in Pending(rs) && r.ts > next
    {
      var i :| 0 <= i < |now| && now[i].valid && now[i] == r;
      assert rs[i] == r;
    }
    forall t | t in AnsweredTs(rs, next, |rs|)
      ensures t in set r | r in Pending(rs) && r.ts <= next :: r.ts
    {
      var i :| 0 <= i < |rs| && rs[i].valid && rs[i].ts <= next && rs[i].ts == t;
      assert rs[i] in Pending(rs);
    }
  }

  /** The row after its pending requests were answered, in terms of the specification. */
  lemma AnsweringIsStep(rs: seq<Request>, now: seq<Request>, m: Model, v: Value, minTs: nat, replies: map<nat, Value>, m': Model)
    requires m.pending == Pending(rs) && m'.pending == Pending(now)
    requires Answering(rs, now, m.served, m'.served, replies, NextPrewrite(rs, |rs|), v, |now|)
    requires if NextPrewrite(rs, |rs|) < UINT64_MAX then Recycles(m.versions, m.oldest, m'.oldest, minTs, m.threads)
        else m'.oldest == m.oldest
    requires IsTop(m.maxServed, replies.Keys - {NextPrewrite(rs, |rs|)}, m'.maxServed)
    requires m'.prewrite == if NextPrewrite(rs, |rs|) < UINT64_MAX then Some(NextPrewrite(rs, |rs|)) else None
    requires m'.versions == m.versions && m'.latest == m.latest && m'.threads == m.threads
    ensures AnswerStep(m, v, minTs, replies, m')
  {
    var next := NextPrewrite(rs, |rs|);
    FirstIsNext(rs);
    LeftPending(rs, now, next);
    AnsweringMaps(rs, now, m.served, m'.served, replies, next, v, |now|);
    assert AnswersUpTo(m, v, minTs, next, replies, m');
  }

  method DoRead(row: RowMvcc, ts: nat) returns (r: Reply)
    requires row.Valid() && row.Fresh(ts)
    modifies row
    ensures row.Valid() && ReadStep(old(ModelOf(row)), ts, r, ModelOf(row)) && Keeps(old(row.served), row.served)
  {
    assert row.st.oldestWts <= row.st.latestWts;
    r := row.Read(ts);
  }

  method DoPrewrite(row: RowMvcc, ts: nat, minTs: nat) returns (r: Reply)
    requires row.Valid() && row.Fresh(ts)
    modifies row
    ensures row.Valid() && PrewriteStep(old(ModelOf(row)), ts, minTs, r, ModelOf(row)) && row.served == old(row.served)
  {
    assert row.st.latestWts in row.versions;
    r := row.Prewrite(ts, minTs);
  }

  method DoWrite(row: RowMvcc, v: Value, minTs: nat) returns (replies: map<nat, Value>)
    requires row.Valid() && row.existsPrewrite
    modifies row
    ensures row.Valid() && old(row.st.latestWts in row.versions) && Keeps(old(row.served), row.served)
    ensures AnswerStep(Written1(old(ModelOf(row)), v), v, minTs, replies, ModelOf(row))
    ensures Keeps(Written1(old(ModelOf(row)), v).served, row.served)
  {
    ghost var m, rs := ModelOf(row), row.requests;
    assert row.st.latestWts in row.versions;
    replies := row.Write(row.prewriteTs, v, minTs);
    AnsweringIsStep(rs, row.requests, Written1(m, v), v, minTs, replies, ModelOf(row));
  }

  method DoAbort(row: RowMvcc, minTs: nat) returns (replies: map<nat, Value>)
    requires row.Valid() && row.existsPrewrite
    modifies row
    ensures row.Valid() && old(row.st.latestWts in row.versions) && Keeps(old(row.served), row.served) && row.versions == old(row.versions)
    ensures AnswerStep(old(ModelOf(row)).(prewrite := None), old(row.versions[row.st.latestWts]), minTs, replies, ModelOf(row))
  {
    assert row.st.latestWts in row.versions;
    ghost var m, rs, v := ModelOf(row).(prewrite := None), row.requests, row.versions[row.st.latestWts];
    replies := row.AbortPrewrite(row.prewriteTs, minTs);
    assert row.Newest() == v;
    AnsweringIsStep(rs, row.requests, m, v, minTs, replies, ModelOf(row));
  }

  /** One request of a run, whatever it is. */
  method Serve(row: RowMvcc, op: Op, written: map<nat, Value>) returns (out: Out)
    requires row.Valid() && row.versions == written
    modifies row
    ensures row.Valid() && Step(old(ModelOf(row)), op, out, ModelOf(row)) && Keeps(old(row.served), row.served)
    ensures op.OpWrite? && out.Replied? ==> Keeps(Written1(old(ModelOf(row)), op.v).served, row.served)
  {
    match op
    case OpRead(ts) =>
      NewIsFresh(row, ts);
      var new_ := IsNew(row, ts, written);
      if new_ {
        var r := DoRead(row, ts);
        out := Said(r);
      } else {
        out := Skipped;
      }
    case OpPrewrite(ts, minTs) =>
      NewIsFresh(row, ts);
      var new_ := IsNew(row, ts, written);
      if new_ {
        var r := DoPrewrite(row, ts, minTs);
        out := Said(r);
      } else {
        out := Skipped;
      }
    case OpWrite(v, minTs) =>
      if row.existsPrewrite {
        var ts := row.prewriteTs;
        var replies := DoWrite(row, v, minTs);
        out := Replied(ts, replies);
      } else {
        out := Skipped;
      }
    case OpAbort(minTs) =>
      if row.existsPrewrite {
        var ts := row.prewriteTs;
        var replies := DoAbort(row, minTs);
        out := Replied(ts, replies);
      } else {
        out := Skipped;
      }
  }

  method IsNew(row: RowMvcc, ts: nat, written: map<nat, Value>) returns (b: bool)
    requires row.versions == written
    ensures b <==> row.Fresh(ts)
  {
    b := 0 < ts < UINT64_MAX && ts !in written && !(row.existsPrewrite && row.prewriteTs == ts)
         && forall i :: 0 <= i < |row.requests| && row.requests[i].valid ==> row.requests[i].ts != ts;
  }

  // ----- whole runs

  /** Exactly the accepted writes. */
  function Written(initial: Value, ops: seq<Op>, outs: seq<Out>): map<nat, Value>
    requires |ops| == |outs|
  {
    if ops == [] then map[0 := initial]
    else
      var n := |ops| - 1;
      var w := Written(initial, ops[..n], outs[..n]);
      if ops[n].OpWrite? && outs[n].Replied? then w[outs[n].ts := ops[n].v] else w
  }

  ghost predicate IsRun(initial: Value, threads: nat, ops: seq<Op>, outs: seq<Out>, tr: seq<Model>) {
    && |outs| == |ops| && |tr| == |ops| + 1 && tr[0] == Start(initial, threads)
    && (forall i :: 0 <= i < |ops| ==> Step(tr[i], ops[i], outs[i], tr[i + 1]))
  }

  /** What the reply of one request put on record. */
  ghost predicate Recorded(m: Model, op: Op, out: Out, served: map<nat, Value>) {
    && (op.OpRead? && out.Said? && out.r.Ok? && (op.ts <= 0x1_0000_0000 || op.ts > m.latest) ==>
        op.ts in served && served[op.ts] == out.r.value)
    && (out.Replied? ==> forall t :: t in out.replies && Request(true, ReadReq, t) in m.pending ==>
        t in served && served[t] == out.replies[t])
    && (op.OpWrite? && out.Replied? && m.latest in m.versions ==> out.ts in served && served[out.ts] == m.versions[m.latest])
  }

  /** The values of one reply are the youngest versions below those who got them. */
  ghost predicate Right(m: Model, op: Op, out: Out, written: map<nat, Value>) {
    && (op.OpRead? && out.Said? && out.r.Ok? && (op.ts <= 0x1_0000_0000 || op.ts > m.latest) ==> IsLatestBelow(written, op.ts, out.r.value))
    && (out.Replied? ==> forall t :: t in out.replies && Request(true, ReadReq, t) in m.pending ==>
        IsLatestBelow(written, t, out.replies[t]))
    && (op.OpWrite? && out.Replied? ==> m.latest in m.versions && IsLatestBelow(written, out.ts, m.versions[m.latest]))
  }

  /** Pending requests differ in their timestamps, below the largest one. */
  ghost predicate Apart(pending: set<Request>) {
    && (forall r, q :: r in pending && q in pending && r.ts == q.ts ==> r == q)
    && (forall r :: r in pending ==> r.ts < UINT64_MAX)
  }

  lemma ValidApart(row: RowMvcc)
    requires row.Valid()
    ensures Apart(ModelOf(row).pending)
  {
    var rs := row.requests;
    forall r, q | r in Pending(rs) && q in Pending(rs) && r.ts == q.ts
      ensures r == q
    {
      var i :| 0 <= i < |rs| && rs[i].valid && rs[i] == r;
      var j :| 0 <= j < |rs| && rs[j].valid && rs[j] == q;
    }
  }

  lemma AnswersRecorded(m: Model, v: Value, minTs: nat, replies: map<nat, Value>, m': Model, t: nat)
    requires AnswerStep(m, v, minTs, replies, m') && Apart(m.pending) && t in replies && Request(true, ReadReq, t) in m.pending
    ensures t in m'.served && m'.served[t] == replies[t]
  {
    var next: nat :| AnswersUpTo(m, v, minTs, next, replies, m');
    assert t != next;
  }

  /** A step records its replies. */
  lemma StepRecorded(m: Model, op: Op, out: Out, m': Model)
    requires Step(m, op, out, m') && Apart(m.pending) && Keeps(m.served, m'.served)
    requires op.OpWrite? && out.Replied? ==> m.latest in m.versions && Keeps(Written1(m, op.v).served, m'.served)
    ensures Recorded(m, op, out, m'.served)
  {
    if out.Replied? {
      forall t | t in out.replies && Request(true, ReadReq, t) in m.pending
        ensures t in m'.served && m'.served[t] == out.replies[t]
      {
        if op.OpWrite? {
          AnswersRecorded(Written1(m, op.v), op.v, op.minTs, out.replies, m', t);
        } else {
          AnswersRecorded(m.(prewrite := None), m.versions[m.latest], op.minTs, out.replies, m', t);
        }
      }
    }
  }

  lemma StaysRecorded(m: Model, op: Op, out: Out, before: map<nat, Value>, after: map<nat, Value>)
    requires Recorded(m, op, out, before) && Keeps(before, after)
    ensures Recorded(m, op, out, after)
  {
  }

  lemma RunMore(initial: Value, threads: nat, ops: seq<Op>, outs: seq<Out>, tr: seq<Model>, op: Op, out: Out, m: Model)
    requires IsRun(initial, threads, ops, outs, tr) && Step(tr[|ops|], op, out, m)
    ensures IsRun(initial, threads, ops + [op], outs + [out], tr + [m])
  {
    var ops', outs', tr' := ops + [op], outs + [out], tr + [m];
    forall i | 0 <= i < |ops'|
      ensures Step(tr'[i], ops'[i], outs'[i], tr'[i + 1])
    {
      if i < |ops| {
        assert Step(tr[i], ops[i], outs[i], tr[i + 1]);
      }
    }
  }

  // ----- when a read is refused

  /** The `min_ts` that a request found; a read asks for none. */
  function MinTsOf(op: Op): nat {
    if op.OpRead? then 0 else op.minTs
  }

  ghost function FromOn(vs: map<nat, Value>, k: nat): set<nat> {
    set q | q in vs && q >= k
  }

  /** Some request found a `min_ts` above version `k`. */
  ghost predicate Collectable(ops: seq<Op>, k: nat) {
    exists j :: 0 <= j < |ops| && k < MinTsOf(ops[j])
  }

  /** Why version `k` may be the oldest one kept: it is the first, or enough was written and it was collected up to or recycled up to. */
  ghost predicate MayBeOldest(vs: map<nat, Value>, ops: seq<Op>, threads: nat, k: nat) {
    k == 0 || (|vs| >= 5 && (Collectable(ops, k) || |FromOn(vs, k)| >= Max(4, threads)))
  }

  lemma SubsetCard(a: set<nat>, b: set<nat>)
    requires a <= b
    ensures |a| <= |b|
  {
    assert b == a + (b - a);
  }

  lemma RecycledMayBeOldest(vs: map<nat, Value>, ops: seq<Op>, op: Op, threads: nat, k: nat, k': nat)
    requires k in vs && MayBeOldest(vs, ops, threads, k) && !op.OpRead? && Recycles(vs, k, k', op.minTs, threads)
    ensures k' in vs && MayBeOldest(vs, ops + [op], threads, k')
  {
    MoreOps(vs, ops, op, threads, k);
    if k' != k {
      assert k !in Above(vs, k);
      SubsetCard(Above(vs, k) + {k}, vs.Keys);
      assert |vs.Keys| == |vs|;
      if k' < op.minTs {
        assert (ops + [op])[|ops|] == op;
      } else {
        assert FromOn(vs, k') == Above(vs, k);
      }
    }
  }

  lemma MoreOps(vs: map<nat, Value>, ops: seq<Op>, op: Op, threads: nat, k: nat)
    requires MayBeOldest(vs, ops, threads, k)
    ensures MayBeOldest(vs, ops + [op], threads, k)
  {
    if Collectable(ops, k) {
      var j :| 0 <= j < |ops| && k < MinTsOf(ops[j]);
      assert (ops + [op])[j] == ops[j];
    }
  }

  lemma MoreVersions(vs: map<nat, Value>, ts: nat, v: Value, ops: seq<Op>, threads: nat, k: nat)
    requires k in vs && MayBeOldest(vs, ops, threads, k)
    ensures k in vs[ts := v] && MayBeOldest(vs[ts := v], ops, threads, k)
  {
    SubsetCard(vs.Keys, vs[ts := v].Keys);
    assert |vs.Keys| == |vs| && |vs[ts := v].Keys| == |vs[ts := v]|;
    SubsetCard(FromOn(vs, k), FromOn(vs[ts := v], k));
  }

  lemma AnswerMayBeOldest(m: Model, v: Value, op: Op, replies: map<nat, Value>, m': Model, ops: seq<Op>)
    requires !op.OpRead? && AnswerStep(m, v, op.minTs, replies, m')
    requires m.oldest in m.versions && MayBeOldest(m.versions, ops, m.threads, m.oldest)
    ensures m'.oldest in m'.versions && MayBeOldest(m'.versions, ops + [op], m.threads, m'.oldest)
  {
    var next: nat :| AnswersUpTo(m, v, op.minTs, next, replies, m');
    if next < UINT64_MAX {
      RecycledMayBeOldest(m.versions, ops, op, m.threads, m.oldest, m'.oldest);
    } else {
      MoreOps(m.versions, ops, op, m.threads, m.oldest);
    }
  }

  lemma StepMayBeOldest(m: Model, op: Op, out: Out, m': Model, ops: seq<Op>)
    requires Step(m, op, out, m') && m.oldest in m.versions && MayBeOldest(m.versions, ops, m.threads, m.oldest)
    ensures m'.threads == m.threads && m'.oldest in m'.versions && MayBeOldest(m'.versions, ops + [op], m.threads, m'.oldest)
  {
    MoreOps(m.versions, ops, op, m.threads, m.oldest);
    if out.Replied? && op.OpWrite? {
      MoreVersions(m.versions, m.prewrite.value, op.v, ops, m.threads, m.oldest);
      AnswerMayBeOldest(Written1(m, op.v), op.v, op, out.replies, m', ops);
    } else if out.Replied? {
      AnswerMayBeOldest(m.(prewrite := None), m.versions[m.latest], op, out.replies, m', ops);
    } else if out.Said? && out.r.Ok? && op.OpPrewrite? {
      RecycledMayBeOldest(m.versions, ops, op, m.threads, m.oldest, m'.oldest);
    }
  }

  /** What is known of the state before request `i`. */
  ghost predicate OldestKnown(initial: Value, threads: nat, ops: seq<Op>, outs: seq<Out>, m: Model) {
    && |outs| == |ops| && m.versions == Written(initial, ops, outs) && m.threads == threads
    && m.oldest in m.versions && MayBeOldest(m.versions, ops, threads, m.oldest)
  }

  lemma NextMayBeOldest(initial: Value, threads: nat, ops: seq<Op>, outs: seq<Out>, m: Model, op: Op, out: Out, m': Model)
    requires OldestKnown(initial, threads, ops, outs, m) && Step(m, op, out, m')
    ensures OldestKnown(initial, threads, ops + [op], outs + [out], m')
  {
    StepMayBeOldest(m, op, out, m', ops);
    StepVersions(m, op, out, m');
    WrittenMore(initial, ops, outs, op, out);
  }

  lemma {:induction false} RunMayBeOldest(initial: Value, threads: nat, ops: seq<Op>, outs: seq<Out>, tr: seq<Model>, i: nat)
    requires IsRun(initial, threads, ops, outs, tr) && i <= |ops|
    ensures OldestKnown(initial, threads, ops[..i], outs[..i], tr[i])
  {
    if i > 0 {
      var j := i - 1;
      RunMayBeOldest(initial, threads, ops, outs, tr, j);
      assert Step(tr[j], ops[j], outs[j], tr[j + 1]);
      NextMayBeOldest(initial, threads, ops[..j], outs[..j], tr[j], ops[j], outs[j], tr[i]);
      assert ops[..i] == ops[..j] + [ops[j]] && outs[..i] == outs[..j] + [outs[j]];
    }
  }

  /**
   * When request `i`, a read, may be refused: at least four writes were accepted before it, one of
   * them younger than the reader, and either some earlier request found a `min_ts` above that one
   * or it and the versions after it are at least four and at least as many as the threads.
   */
  ghost predicate Refusable(initial: Value, threads: nat, ops: seq<Op>, outs: seq<Out>, i: nat)
    requires |outs| == |ops| && i < |ops| && ops[i].OpRead?
  {
    var w := Written(initial, ops[..i], outs[..i]);
    |w| >= 5 && exists k :: k in w && ops[i].ts < k && (Collectable(ops[..i], k) || |FromOn(w, k)| >= Max(4, threads))
  }

  lemma RefusedIsRefusable(initial: Value, threads: nat, ops: seq<Op>, outs: seq<Out>, tr: seq<Model>, i: nat)
    requires IsRun(initial, threads, ops, outs, tr) && i < |ops| && ops[i].OpRead? && outs[i] == Said(Abort)
    ensures Refusable(initial, threads, ops, outs, i)
  {
    RunMayBeOldest(initial, threads, ops, outs, tr, i);
    assert Step(tr[i], ops[i], outs[i], tr[i + 1]);
    assert ops[i].ts < tr[i].oldest;
  }

  /** The replies are those of a run of the specification whose versions are the accepted writes, and they are right. */
  ghost predicate Explained(initial: Value, threads: nat, ops: seq<Op>, outs: seq<Out>)
    requires |outs| == |ops|
  {
    exists tr: seq<Model> ::
      && IsRun(initial, threads, ops, outs, tr) && tr[|ops|].versions == Written(initial, ops, outs)
      && forall i :: 0 <= i < |ops| ==> Right(tr[i], ops[i], outs[i], Written(initial, ops, outs))
  }

  /** Every read served at once got the youngest version below it in the final history. */
  ghost predicate ReadsRight(initial: Value, ops: seq<Op>, outs: seq<Out>)
    requires |outs| == |ops|
  {
    forall i :: 0 <= i < |ops| && ops[i].OpRead? && outs[i].Said? && outs[i].r.Ok? && ops[i].ts <= 0x1_0000_0000 ==>
      IsLatestBelow(Written(initial, ops, outs), ops[i].ts, outs[i].r.value)
  }

  /** Every read refused was one that could be. */
  ghost predicate RefusalsRight(initial: Value, threads: nat, ops: seq<Op>, outs: seq<Out>)
    requires |outs| == |ops|
  {
    forall i :: 0 <= i < |ops| && ops[i].OpRead? && outs[i] == Said(Abort) ==> Refusable(initial, threads, ops, outs, i)
  }

  /**
   * Any run of requests goes as the specification says, reply by reply. The versions at its end
   * are exactly the accepted writes, and every value handed out on the way, to a reader at once
   * or after waiting and to a writer that committed, is the one of the youngest version below it
   * in that final history: no later write fell between, and no recycling lost it.
   */
  method AnyRun(initial: Value, threads: nat, ops: seq<Op>) returns (outs: seq<Out>)
    ensures |outs| == |ops| && Explained(initial, threads, ops, outs)
    ensures ReadsRight(initial, ops, outs) && RefusalsRight(initial, threads, ops, outs)
  {
    var row := new RowMvcc(initial, threads);
    var written := map[0 := initial];
    assert Pending(row.requests) == {};
    ghost var tr := [ModelOf(row)];
    outs := [];
    var i := 0;
    while i < |ops|
      invariant 0 <= i <= |ops| && fresh(row)
      invariant Tracks(row, initial, threads, ops[..i], outs, tr, written)
    {
      var out;
      out, written, tr := OneMore(row, initial, threads, ops[..i], outs, tr, ops[i], written);
      outs := outs + [out];
      assert ops[..i + 1] == ops[..i] + [ops[i]];
      i := i + 1;
    }
    assert ops[..i] == ops;
    Explains(row, initial, threads, ops, outs, tr, written);
  }

  lemma Explains(row: RowMvcc, initial: Value, threads: nat, ops: seq<Op>, outs: seq<Out>, tr: seq<Model>, written: map<nat, Value>)
    requires Tracks(row, initial, threads, ops, outs, tr, written)
    ensures |outs| == |ops| && Explained(initial, threads, ops, outs)
    ensures ReadsRight(initial, ops, outs) && RefusalsRight(initial, threads, ops, outs)
  {
    forall i | 0 <= i < |ops| && ops[i].OpRead? && outs[i] == Said(Abort)
      ensures Refusable(initial, threads, ops, outs, i)
    {
      RefusedIsRefusable(initial, threads, ops, outs, tr, i);
    }
    AllRight(row, initial, threads, ops, outs, tr, written);
    assert forall j :: 0 <= j < |ops| ==> Right(tr[j], ops[j], outs[j], written);
  }

  lemma AllRight(row: RowMvcc, initial: Value, threads: nat, ops: seq<Op>, outs: seq<Out>, tr: seq<Model>, written: map<nat, Value>)
    requires Tracks(row, initial, threads, ops, outs, tr, written)
    ensures forall j :: 0 <= j < |ops| ==> Right(tr[j], ops[j], outs[j], written)
  {
    forall j | 0 <= j < |ops|
      ensures Right(tr[j], ops[j], outs[j], written)
    {
      RecordedIsRight(row, tr[j], ops[j], outs[j], tr[j + 1]);
    }
  }

  /** The run so far, against the row. */
  ghost predicate Tracks(row: RowMvcc, initial: Value, threads: nat, ops: seq<Op>, outs: seq<Out>, tr: seq<Model>, written: map<nat, Value>)
    reads row
  {
    && row.Valid() && row.versions == written && IsRun(initial, threads, ops, outs, tr)
    && tr[|ops|] == ModelOf(row) && written == Written(initial, ops, outs)
    && (forall j :: 0 <= j < |ops| ==> Recorded(tr[j], ops[j], outs[j], row.served))
  }

  method OneMore(row: RowMvcc, ghost initial: Value, ghost threads: nat, ghost ops: seq<Op>, ghost outs: seq<Out>,
      ghost tr: seq<Model>, op: Op, written: map<nat, Value>)
    returns (out: Out, written': map<nat, Value>, ghost tr': seq<Model>)
    requires Tracks(row, initial, threads, ops, outs, tr, written)
    modifies row
    ensures Tracks(row, initial, threads, ops + [op], outs + [out], tr', written')
  {
    ghost var m := ModelOf(row);
    ValidApart(row);
    out := ServeAndRecord(row, op, written);
    written' := if op.OpWrite? && out.Replied? then written[out.ts := op.v] else written;
    tr' := tr + [ModelOf(row)];
    RunMore(initial, threads, ops, outs, tr, op, out, ModelOf(row));
    WrittenMore(initial, ops, outs, op, out);
    forall j | 0 <= j < |ops + [op]|
      ensures Recorded(tr'[j], (ops + [op])[j], (outs + [out])[j], row.served)
    {
      if j < |ops| {
        StaysRecorded(tr[j], ops[j], outs[j], m.served, row.served);
      }
    }
  }

  lemma WrittenMore(initial: Value, ops: seq<Op>, outs: seq<Out>, op: Op, out: Out)
    requires |ops| == |outs|
    ensures Written(initial, ops + [op], outs + [out]) ==
      if op.OpWrite? && out.Replied? then Written(initial, ops, outs)[out.ts := op.v] else Written(initial, ops, outs)
  {
    assert (ops + [op])[..|ops|] == ops && (outs + [out])[..|outs|] == outs;
  }

  lemma RecordedIsRight(row: RowMvcc, m: Model, op: Op, out: Out, m': Model)
    requires row.Valid() && Recorded(m, op, out, row.served) && Step(m, op, out, m')
    ensures Right(m, op, out, row.versions)
  {
    assert ServedOK(row.served, row.versions, Max(row.maxServedRts, row.st.latestWts));
  }

  method ServeAndRecord(row: RowMvcc, op: Op, written: map<nat, Value>) returns (out: Out)
    requires row.Valid() && row.versions == written && Apart(ModelOf(row).pending)
    modifies row
    ensures row.Valid() && Step(old(ModelOf(row)), op, out, ModelOf(row)) && Keeps(old(row.served), row.served)
    ensures Recorded(old(ModelOf(row)), op, out, row.served)
    ensures row.versions == if op.OpWrite? && out.Replied? then written[out.ts := op.v] else written
  {
    ghost var m := ModelOf(row);
    out := Serve(row, op, written);
    ghost var m' := ModelOf(row);
    StepRecorded(m, op, out, m');
    StepVersions(m, op, out, m');
  }

  lemma StepVersions(m: Model, op: Op, out: Out, m': Model)
    requires Step(m, op, out, m')
    ensures m'.versions == if op.OpWrite? && out.Replied? then m.versions[out.ts := op.v] else m.versions
  {
  }
}
