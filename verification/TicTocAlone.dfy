/**
 * A transaction of TicToc that nobody interferes with commits, and does what it was asked to
 * (trusted/concurrency_control/tictoc.cpp:53-243, row_tictoc.cpp:27-157).
 */
module TicTocAlone {
  import opened Wrappers
  import opened Serial
  import opened Programs
  import opened TicToc

  /** Steps of `t` alone lead from `s` to `m`. */
  ghost predicate Leads(s: State, t: nat, byLength: bool, m: State) {
    exists h: seq<Action> :: Run(s, h, byLength) == Some(m) && forall i :: 0 <= i < |h| ==> h[i].t == t
  }

  lemma Stay(s: State, t: nat, byLength: bool)
    ensures Leads(s, t, byLength, s)
  {
    assert Run(s, [], byLength) == Some(s);
  }

  lemma Go(s: State, t: nat, byLength: bool, m: State, a: Action)
    requires Leads(s, t, byLength, m) && Enabled(m, a) && a.t == t
    ensures Leads(s, t, byLength, Apply(m, a, byLength))
  {
    var h: seq<Action> :| Run(s, h, byLength) == Some(m) && forall i :: 0 <= i < |h| ==> h[i].t == t;
    var h' := h + [a];
    assert h'[..|h'| - 1] == h;
    assert Run(s, h', byLength) == Some(Apply(m, a, byLength));
  }

  /** `a` is an access of `row` as it is. */
  predicate Copies(a: Acc, row: Row) {
    a.wts == row.word.wts && a.rts == row.word.Rts() && a.data == row.data
  }

  /** `x` has accessed exactly the rows of the plan, as they are in `rows`. */
  predicate Accesses(x: Txn, plan: Plan, rows: seq<Row>) {
    && x.rd.Keys == plan.rd && x.wr.Keys == plan.wr.Keys
    && (forall r :: r in x.rd ==> r < |rows| && Copies(x.rd[r], rows[r]))
    && (forall r :: r in x.wr ==> r < |rows| && Copies(x.wr[r], rows[r]) && x.wr[r].val == plan.wr[r])
  }

  /** Only `t` has moved, and only on its own; it is ready for the next operation. */
  predicate Private(s: State, m: State, t: nat) {
    t < |s.txns| == |m.txns| && m == s.(txns := s.txns[t := m.txns[t]]) && m.txns[t].phase.Running?
  }

  // ----- the body

  lemma SetTwice(m: State, t: nat, x: Txn, y: Txn)
    requires t < |m.txns|
    ensures SetTxn(SetTxn(m, t, x), t, y) == SetTxn(m, t, y)
  {
  }

  lemma CopyAlone(s: State, m: State, t: nat, r: nat, w: bool, byLength: bool)
    requires Leads(s, t, byLength, m) && t < |m.txns| && m.txns[t].phase.Running?
    requires r < |m.rows| && m.rows[r].lock == FREE && r !in m.txns[t].rd && r !in m.txns[t].wr
    ensures Leads(s, t, byLength, SetTxn(m, t, m.txns[t].(phase := Copied(r, w, m.rows[r].word, m.rows[r].data))))
  {
    var x := m.txns[t].(phase := Peeked(r, w, m.rows[r].word));
    Go(s, t, byLength, m, Peek(t, r, w));
    Go(s, t, byLength, SetTxn(m, t, x), CopyRow(t));
    SetTwice(m, t, x, x.(phase := Copied(r, w, m.rows[r].word, m.rows[r].data)));
  }

  function AccessOf(x: Txn, row: Row, r: nat, w: bool, val: Value): Txn {
    var a := Acc(row.word.wts, row.word.Rts(), row.data, val);
    if w then x.(wr := x.wr[r := a]) else x.(rd := x.rd[r := a])
  }

  /** An access of a free row: look, copy, look again. */
  lemma AccessAlone(s: State, m: State, t: nat, r: nat, w: bool, val: Value, byLength: bool)
    requires Leads(s, t, byLength, m) && t < |m.txns| && m.txns[t].phase.Running?
    requires r < |m.rows| && m.rows[r].lock == FREE && r !in m.txns[t].rd && r !in m.txns[t].wr
    ensures Leads(s, t, byLength, SetTxn(m, t, AccessOf(m.txns[t], m.rows[r], r, w, val)))
  {
    CopyAlone(s, m, t, r, w, byLength);
    var m2 := SetTxn(m, t, m.txns[t].(phase := Copied(r, w, m.rows[r].word, m.rows[r].data)));
    Go(s, t, byLength, m2, Recheck(t, val));
    SetTwice(m, t, m2.txns[t], AccessOf(m.txns[t], m.rows[r], r, w, val));
  }

  lemma ReadPlan(x: Txn, plan: Plan, rows: seq<Row>, r: nat, a: Acc)
    requires Accesses(x, plan, rows) && r < |rows| && Copies(a, rows[r]) && r !in plan.wr
    ensures Accesses(x.(rd := x.rd[r := a]), Then(plan, ReadRow(r)), rows)
  {
  }

  lemma WritePlan(x: Txn, plan: Plan, rows: seq<Row>, r: nat, a: Acc)
    requires Accesses(x, plan, rows) && r < |rows| && Copies(a, rows[r])
    ensures Accesses(x.(wr := x.wr[r := a]), Then(plan, WriteRow(r, a.val)), rows)
  {
  }

  lemma OneOp(s: State, m: State, t: nat, plan: Plan, op: Op, byLength: bool) returns (m': State)
    requires Leads(s, t, byLength, m) && t < |m.txns| && m.txns[t].phase.Running? && Accesses(m.txns[t], plan, m.rows)
    requires op.r < |m.rows| && m.rows[op.r].lock == FREE && (op.WriteRow? ==> op.r !in plan.rd)
    ensures Leads(s, t, byLength, m') && Private(m, m', t) && Accesses(m'.txns[t], Then(plan, op), m.rows)
  {
    var r, x := op.r, m.txns[t];
    var a := Acc(m.rows[r].word.wts, m.rows[r].word.Rts(), m.rows[r].data, if op.WriteRow? then op.val else 0);
    if op.ReadRow? && (r in plan.wr || r in plan.rd) {
      assert plan.rd + {r} == plan.rd || r in plan.wr;
      m' := m;
    } else if op.ReadRow? {
      AccessAlone(s, m, t, r, false, 0, byLength);
      ReadPlan(x, plan, m.rows, r, a);
      m' := SetTxn(m, t, x.(rd := x.rd[r := a]));
    } else if r in plan.wr {
      Go(s, t, byLength, m, Modify(t, r, op.val));
      WritePlan(x, plan, m.rows, r, x.wr[r].(val := op.val));
      m' := SetTxn(m, t, x.(wr := x.wr[r := x.wr[r].(val := op.val)]));
    } else {
      AccessAlone(s, m, t, r, true, op.val, byLength);
      WritePlan(x, plan, m.rows, r, a);
      m' := SetTxn(m, t, x.(wr := x.wr[r := a]));
    }
  }

  /** The program's rows are within the table and free. */
  predicate CanReach(rows: seq<Row>, ops: seq<Op>) {
    forall i :: 0 <= i < |ops| ==> ops[i].r < |rows| && rows[ops[i].r].lock == FREE
  }

  lemma {:induction false} Execute(s: State, t: nat, ops: seq<Op>, byLength: bool) returns (m: State)
    requires t < |s.txns| && s.txns[t] == Txn(map[], map[], 0, Running) && Proper(ops) && CanReach(s.rows, ops)
    ensures Leads(s, t, byLength, m) && Private(s, m, t) && Accesses(m.txns[t], PlanOf(ops), s.rows)
    decreases |ops|
  {
    if ops == [] {
      Stay(s, t, byLength);
      m := s;
    } else {
      var n := |ops| - 1;
      m := Execute(s, t, ops[..n], byLength);
      m := OneOp(s, m, t, PlanOf(ops[..n]), ops[n], byLength);
    }
  }

  // ----- validation

  /** What the commit does to a row: locked for the writer, its lease renewed for the reader. */
  function Marked(x: Txn, t: nat, row: Row, r: nat, locked: set<nat>, valid: set<nat>, cts: nat): Row {
    var o := if r in locked then row.(lock := t) else row;
    if r in valid && r in x.rd && x.rd[r].rts < cts && x.rd[r].wts <= cts then o.(word := Renewed(x.rd[r].wts, cts)) else o
  }

  /** `b` with `t` in `phase`, the rows of `locked` locked, and the leases of those of `valid` renewed. */
  function Under(b: State, t: nat, cts: nat, phase: Phase, locked: set<nat>, valid: set<nat>): State
    requires t < |b.txns|
  {
    b.(txns := b.txns[t := b.txns[t].(phase := phase, cts := cts)],
       rows := seq(|b.rows|, r requires 0 <= r < |b.rows| => Marked(b.txns[t], t, b.rows[r], r, locked, valid, cts)))
  }

  lemma HasCommitTs(rd: map<nat, Acc>, wr: map<nat, Acc>) returns (cts: nat)
    ensures IsCommitTs(rd, wr, cts)
  {
    var a := set r | r in rd :: rd[r].wts;
    var b := set r | r in wr :: wr[r].rts + 1;
    cts := Greatest(a + b + {0});
    assert forall r :: r in rd ==> rd[r].wts in a + b + {0};
    assert forall r :: r in wr ==> wr[r].rts + 1 in a + b + {0};
  }

  /** `t` has executed the plan and its rows are free. */
  predicate Ready(b: State, t: nat, plan: Plan) {
    && t < |b.txns| && b.txns[t].phase.Running? && Accesses(b.txns[t], plan, b.rows) && plan.rd !! plan.wr.Keys
    && forall r :: r in plan.Rows() ==> r < |b.rows| && b.rows[r].lock == FREE
  }

  lemma LockStep(s: State, b: State, t: nat, plan: Plan, cts: nat, done: set<nat>, r: nat, byLength: bool)
    requires Ready(b, t, plan) && r in plan.wr && r !in done
    requires Leads(s, t, byLength, Under(b, t, cts, Locking(done), done, {}))
    ensures Leads(s, t, byLength, Under(b, t, cts, Locking(done + {r}), done + {r}, {}))
  {
    assert r in plan.Rows();
    var m0, m1 := Under(b, t, cts, Locking(done), done, {}), Under(b, t, cts, Locking(done), done + {r}, {});
    Go(s, t, byLength, m0, TryLock(t, r));
    assert Apply(m0, TryLock(t, r), byLength).rows == m1.rows;
    Go(s, t, byLength, m1, Check(t, r));
    assert Apply(m1, Check(t, r), byLength).txns == Under(b, t, cts, Locking(done + {r}), done + {r}, {}).txns;
  }

  lemma LockAll(s: State, b: State, t: nat, plan: Plan, cts: nat, byLength: bool)
    requires Ready(b, t, plan) && Leads(s, t, byLength, Under(b, t, cts, Locking({}), {}, {}))
    ensures Leads(s, t, byLength, Under(b, t, cts, Locking(plan.wr.Keys), plan.wr.Keys, {}))
  {
    var reached := (d: set<nat>) => Leads(s, t, byLength, Under(b, t, cts, Locking(d), d, {}));
    forall d, r | d <= plan.wr.Keys && r in plan.wr.Keys && r !in d && reached(d)
      ensures reached(d + {r})
    {
      LockStep(s, b, t, plan, cts, d, r, byLength);
    }
    ForEach(plan.wr.Keys, {}, reached);
  }

  /** The leases of the locked rows have not moved, so commit_wts stays. */
  lemma RaiseStep(s: State, b: State, t: nat, plan: Plan, cts: nat, done: set<nat>, r: nat, byLength: bool)
    requires Ready(b, t, plan) && r in plan.wr && b.txns[t].wr[r].rts < cts
    requires Leads(s, t, byLength, Under(b, t, cts, Raising(done), plan.wr.Keys, {}))
    ensures Leads(s, t, byLength, Under(b, t, cts, Raising(done + {r}), plan.wr.Keys, {}))
  {
    assert r in plan.Rows();
    var m0 := Under(b, t, cts, Raising(done), plan.wr.Keys, {});
    Go(s, t, byLength, m0, Raise(t, r));
    assert Apply(m0, Raise(t, r), byLength).txns == Under(b, t, cts, Raising(done + {r}), plan.wr.Keys, {}).txns;
  }

  lemma RaiseAll(s: State, b: State, t: nat, plan: Plan, cts: nat, byLength: bool)
    requires Ready(b, t, plan) && IsCommitTs(b.txns[t].rd, b.txns[t].wr, cts)
    requires Leads(s, t, byLength, Under(b, t, cts, Raising({}), plan.wr.Keys, {}))
    ensures Leads(s, t, byLength, Under(b, t, cts, Raising(plan.wr.Keys), plan.wr.Keys, {}))
  {
    var reached := (d: set<nat>) => Leads(s, t, byLength, Under(b, t, cts, Raising(d), plan.wr.Keys, {}));
    forall d, r | d <= plan.wr.Keys && r in plan.wr.Keys && r !in d && reached(d)
      ensures reached(d + {r})
    {
      RaiseStep(s, b, t, plan, cts, d, r, byLength);
    }
    ForEach(plan.wr.Keys, {}, reached);
  }

  lemma LookAt(b: State, t: nat, plan: Plan, cts: nat, done: set<nat>, r: nat, byLength: bool)
    requires Ready(b, t, plan) && r in plan.rd && r !in done && b.txns[t].rd[r].wts <= cts && b.txns[t].rd[r].rts < cts
    ensures r < |b.rows|
    ensures var m := Under(b, t, cts, Validating(done), plan.wr.Keys, done);
      && Enabled(m, Look(t, r))
      && Apply(m, Look(t, r), byLength) == SetTxn(m, t, m.txns[t].(phase := Renewing(done, r, b.rows[r].word)))
  {
    assert r in plan.Rows();
  }

  lemma SwapAt(b: State, t: nat, plan: Plan, cts: nat, done: set<nat>, r: nat, byLength: bool)
    requires Ready(b, t, plan) && r in plan.rd && r !in done && b.txns[t].rd[r].wts <= cts && b.txns[t].rd[r].rts < cts && r < |b.rows|
    ensures var m0 := Under(b, t, cts, Validating(done), plan.wr.Keys, done);
      var m := SetTxn(m0, t, m0.txns[t].(phase := Renewing(done, r, b.rows[r].word)));
      && Enabled(m, Swap(t))
      && Apply(m, Swap(t), byLength) == Under(b, t, cts, Validating(done + {r}), plan.wr.Keys, done + {r})
  {
    assert r in plan.Rows();
    var m0 := Under(b, t, cts, Validating(done), plan.wr.Keys, done);
    var m := SetTxn(m0, t, m0.txns[t].(phase := Renewing(done, r, b.rows[r].word)));
    var goal := Under(b, t, cts, Validating(done + {r}), plan.wr.Keys, done + {r});
    assert Apply(m, Swap(t), byLength).rows == goal.rows;
    assert Apply(m, Swap(t), byLength).txns == goal.txns;
  }

  lemma Renew(s: State, b: State, t: nat, plan: Plan, cts: nat, done: set<nat>, r: nat, byLength: bool)
    requires Ready(b, t, plan) && r in plan.rd && r !in done && b.txns[t].rd[r].wts <= cts && b.txns[t].rd[r].rts < cts
    requires Leads(s, t, byLength, Under(b, t, cts, Validating(done), plan.wr.Keys, done))
    ensures Leads(s, t, byLength, Under(b, t, cts, Validating(done + {r}), plan.wr.Keys, done + {r}))
  {
    var m := Under(b, t, cts, Validating(done), plan.wr.Keys, done);
    LookAt(b, t, plan, cts, done, r, byLength);
    Go(s, t, byLength, m, Look(t, r));
    SwapAt(b, t, plan, cts, done, r, byLength);
    Go(s, t, byLength, SetTxn(m, t, m.txns[t].(phase := Renewing(done, r, b.rows[r].word))), Swap(t));
  }

  /** A lease that is long enough is kept, another one renewed. */
  lemma ValidStep(s: State, b: State, t: nat, plan: Plan, cts: nat, done: set<nat>, r: nat, byLength: bool)
    requires Ready(b, t, plan) && r in plan.rd && r !in done && b.txns[t].rd[r].wts <= cts
    requires Leads(s, t, byLength, Under(b, t, cts, Validating(done), plan.wr.Keys, done))
    ensures Leads(s, t, byLength, Under(b, t, cts, Validating(done + {r}), plan.wr.Keys, done + {r}))
  {
    if cts <= b.txns[t].rd[r].rts {
      var m0 := Under(b, t, cts, Validating(done), plan.wr.Keys, done);
      Go(s, t, byLength, m0, KeepLease(t, r));
      var m1 := Under(b, t, cts, Validating(done + {r}), plan.wr.Keys, done + {r});
      assert m0.rows == m1.rows;
      assert Apply(m0, KeepLease(t, r), byLength).txns == m1.txns;
    } else {
      Renew(s, b, t, plan, cts, done, r, byLength);
    }
  }

  lemma ValidAll(s: State, b: State, t: nat, plan: Plan, cts: nat, byLength: bool)
    requires Ready(b, t, plan) && IsCommitTs(b.txns[t].rd, b.txns[t].wr, cts)
    requires Leads(s, t, byLength, Under(b, t, cts, Validating({}), plan.wr.Keys, {}))
    ensures Leads(s, t, byLength, Under(b, t, cts, Validating(plan.rd), plan.wr.Keys, plan.rd))
  {
    var reached := (d: set<nat>) => Leads(s, t, byLength, Under(b, t, cts, Validating(d), plan.wr.Keys, d));
    forall d, r | d <= plan.rd && r in plan.rd && r !in d && reached(d)
      ensures reached(d + {r})
    {
      ValidStep(s, b, t, plan, cts, d, r, byLength);
    }
    ForEach(plan.rd, {}, reached);
  }

  // ----- the commit

  function BackRows(rows: seq<Row>, x: Txn, done: set<nat>): seq<Row> {
    seq(|rows|, r requires 0 <= r < |rows| => if r in done && r in x.wr then Row(FREE, Word(x.cts, 0), x.wr[r].val) else rows[r])
  }

  lemma OneMoreBack(rows: seq<Row>, x: Txn, done: set<nat>, r: nat, row: Row)
    requires r < |rows| && r in x.wr
    ensures BackRows(rows, x, done)[r := row][r := Row(FREE, Word(x.cts, 0), x.wr[r].val)] == BackRows(rows, x, done + {r})
  {
  }

  /** `e` with the transaction's phase and the rows changed. */
  function Puts(e: State, t: nat, rows: seq<Row>, phase: Phase): State
    requires t < |e.txns|
  {
    e.(txns := e.txns[t := e.txns[t].(phase := phase)], rows := rows)
  }

  /** `e` once `t` has installed and released the rows of `done`. */
  function Back(e: State, t: nat, done: set<nat>): State
    requires t < |e.txns|
  {
    Puts(e, t, BackRows(e.rows, e.txns[t], done), Installing(done, done))
  }

  predicate Holds(e: State, t: nat, r: nat) {
    t < |e.txns| && r in e.txns[t].wr && r < |e.rows| && e.rows[r].lock == t
  }

  lemma WordNext(e: State, t: nat, done: set<nat>, r: nat, byLength: bool)
    requires Holds(e, t, r) && r !in done
    ensures var m := Back(e, t, done);
      && Enabled(m, WriteWord(t, r))
      && Apply(m, WriteWord(t, r), byLength) ==
           Puts(e, t, m.rows[r := e.rows[r].(word := Word(e.txns[t].cts, 0))], Installing(done + {r}, done))
  {
    assert Back(e, t, done).rows[r] == e.rows[r];
  }

  lemma DataNext(e: State, t: nat, done: set<nat>, r: nat, rows: seq<Row>, byLength: bool)
    requires Holds(e, t, r) && r !in done && |rows| == |e.rows|
    ensures var x, m := e.txns[t], Puts(e, t, rows[r := e.rows[r].(word := Word(e.txns[t].cts, 0))], Installing(done + {r}, done));
      && Enabled(m, WriteData(t, r))
      && Apply(m, WriteData(t, r), byLength) == Puts(e, t, rows[r := Row(t, Word(x.cts, 0), x.wr[r].val)],
          Installing(done + {r}, done + {r}))
  {
    var x, m := e.txns[t], Puts(e, t, rows[r := e.rows[r].(word := Word(e.txns[t].cts, 0))], Installing(done + {r}, done));
    var goal := Puts(e, t, rows[r := Row(t, Word(x.cts, 0), x.wr[r].val)], Installing(done + {r}, done + {r}));
    assert Apply(m, WriteData(t, r), byLength).rows == goal.rows;
    assert Apply(m, WriteData(t, r), byLength).txns == goal.txns;
  }

  lemma ReleaseNext(e: State, t: nat, done: set<nat>, r: nat, byLength: bool)
    requires Holds(e, t, r) && r !in done
    ensures var x, rows := e.txns[t], BackRows(e.rows, e.txns[t], done);
      var m := Puts(e, t, rows[r := Row(t, Word(x.cts, 0), x.wr[r].val)], Installing(done + {r}, done + {r}));
      Enabled(m, Release(t, r)) && Apply(m, Release(t, r), byLength) == Back(e, t, done + {r})
  {
    OneMoreBack(e.rows, e.txns[t], done, r, Row(t, Word(e.txns[t].cts, 0), e.txns[t].wr[r].val));
  }

  lemma InstallStep(s: State, e: State, t: nat, done: set<nat>, r: nat, byLength: bool)
    requires Holds(e, t, r) && r !in done && Leads(s, t, byLength, Back(e, t, done))
    ensures Leads(s, t, byLength, Back(e, t, done + {r}))
  {
    var x, rows := e.txns[t], BackRows(e.rows, e.txns[t], done);
    WordNext(e, t, done, r, byLength);
    Go(s, t, byLength, Back(e, t, done), WriteWord(t, r));
    DataNext(e, t, done, r, rows, byLength);
    Go(s, t, byLength, Puts(e, t, rows[r := e.rows[r].(word := Word(x.cts, 0))], Installing(done + {r}, done)), WriteData(t, r));
    ReleaseNext(e, t, done, r, byLength);
    Go(s, t, byLength, Puts(e, t, rows[r := Row(t, Word(x.cts, 0), x.wr[r].val)], Installing(done + {r}, done + {r})), Release(t, r));
  }

  lemma InstallAll(s: State, e: State, t: nat, byLength: bool)
    requires t < |e.txns| && e.txns[t].phase == Installing({}, {}) && Leads(s, t, byLength, e)
    requires forall r :: r in e.txns[t].wr ==> Holds(e, t, r)
    ensures Leads(s, t, byLength, Back(e, t, e.txns[t].wr.Keys))
  {
    assert Back(e, t, {}) == e by {
      assert Back(e, t, {}).rows == e.rows && Back(e, t, {}).txns == e.txns;
    }
    var reached := (d: set<nat>) => Leads(s, t, byLength, Back(e, t, d));
    forall d, r | d <= e.txns[t].wr.Keys && r in e.txns[t].wr.Keys && r !in d && reached(d)
      ensures reached(d + {r})
    {
      InstallStep(s, e, t, d, r, byLength);
    }
    ForEach(e.txns[t].wr.Keys, {}, reached);
  }

  /** `b` at the commit: locks taken, leases renewed, the record in the history. */
  function Decided(b: State, t: nat, plan: Plan, cts: nat): State
    requires t < |b.txns|
  {
    Under(b, t, cts, Installing({}, {}), plan.wr.Keys, plan.rd).(hist := Insert(b.hist, RecordOf(t, b.txns[t].(cts := cts))))
  }

  /** From the end of the body to the commit. */
  lemma CommitAlone(s: State, b: State, t: nat, plan: Plan, byLength: bool) returns (cts: nat)
    requires Ready(b, t, plan) && Leads(s, t, byLength, b)
    ensures IsCommitTs(b.txns[t].rd, b.txns[t].wr, cts) && Leads(s, t, byLength, Decided(b, t, plan, cts))
  {
    cts := HasCommitTs(b.txns[t].rd, b.txns[t].wr);
    Go(s, t, byLength, b, BeginLocking(t, cts));
    var m0 := Under(b, t, cts, Locking({}), {}, {});
    assert Apply(b, BeginLocking(t, cts), byLength).rows == m0.rows;
    LockAll(s, b, t, plan, cts, byLength);
    Moves(s, b, t, plan, cts, byLength);
    ValidAll(s, b, t, plan, cts, byLength);
    var m := Under(b, t, cts, Validating(plan.rd), plan.wr.Keys, plan.rd);
    Go(s, t, byLength, m, Commit(t));
    assert Apply(m, Commit(t), byLength).txns == Decided(b, t, plan, cts).txns;
  }

  lemma Moves(s: State, b: State, t: nat, plan: Plan, cts: nat, byLength: bool)
    requires Ready(b, t, plan) && IsCommitTs(b.txns[t].rd, b.txns[t].wr, cts)
    requires Leads(s, t, byLength, Under(b, t, cts, Locking(plan.wr.Keys), plan.wr.Keys, {}))
    ensures Leads(s, t, byLength, Under(b, t, cts, Validating({}), plan.wr.Keys, {}))
  {
    var m0, m1 := Under(b, t, cts, Locking(plan.wr.Keys), plan.wr.Keys, {}), Under(b, t, cts, Raising({}), plan.wr.Keys, {});
    Go(s, t, byLength, m0, BeginRaising(t));
    assert Apply(m0, BeginRaising(t), byLength).txns == m1.txns;
    RaiseAll(s, b, t, plan, cts, byLength);
    var m2 := Under(b, t, cts, Raising(plan.wr.Keys), plan.wr.Keys, {});
    Go(s, t, byLength, m2, BeginValidating(t));
    assert Apply(m2, BeginValidating(t), byLength).txns == Under(b, t, cts, Validating({}), plan.wr.Keys, {}).txns;
  }

  // ----- the whole transaction

  /**
   * What the transaction leaves: one record more, at the least timestamp possible, its writes in the
   * rows with that timestamp, leases of the rows it read up to it, and the other rows and
   * transactions as they were.
   */
  ghost predicate Did(s: State, f: State, t: nat, plan: Plan, c: Committed) {
    && c.id == t && c.writeSet == plan.wr && c.readSet.Keys == plan.Rows()
    && (forall r :: r in c.readSet ==> r < |s.rows| && c.readSet[r] == s.rows[r].data)
    && MayCommitAt(s.rows, plan, c.ts) && (forall u: nat :: MayCommitAt(s.rows, plan, u) ==> c.ts <= u)
    && f.hist == Insert(s.hist, c) && |f.rows| == |s.rows| && |f.txns| == |s.txns|
    && (forall r :: 0 <= r < |s.rows| ==> RowAfter(s.rows[r], f.rows[r], r, plan, c.ts))
    && (forall u :: 0 <= u < |s.txns| && u != t ==> f.txns[u] == s.txns[u])
  }

  /** No earlier than the versions read, and after the leases of the rows written. */
  predicate MayCommitAt(rows: seq<Row>, plan: Plan, ts: nat) {
    && (forall r :: r in plan.rd ==> r < |rows| && rows[r].word.wts <= ts)
    && (forall r :: r in plan.wr ==> r < |rows| && rows[r].word.Rts() < ts)
  }

  lemma CommitsFirst(x: Txn, plan: Plan, rows: seq<Row>, cts: nat)
    requires Accesses(x, plan, rows) && IsCommitTs(x.rd, x.wr, cts)
    ensures MayCommitAt(rows, plan, cts) && forall u: nat :: MayCommitAt(rows, plan, u) ==> cts <= u
  {
  }

  predicate RowAfter(row: Row, row': Row, r: nat, plan: Plan, cts: nat) {
    if r in plan.wr then row' == Row(FREE, Word(cts, 0), plan.wr[r]) && row.word.Rts() < cts
    else if r in plan.rd then row'.lock == row.lock && row'.data == row.data && row.word.wts <= cts <= row'.word.Rts()
    else row' == row
  }

  lemma RecordIs(t: nat, x: Txn, plan: Plan, rows: seq<Row>)
    requires Accesses(x, plan, rows) && plan.rd !! plan.wr.Keys
    ensures var c := RecordOf(t, x);
      && c.id == t && c.ts == x.cts && c.writeSet == plan.wr && c.readSet.Keys == plan.Rows()
      && forall r :: r in c.readSet ==> r < |rows| && c.readSet[r] == rows[r].data
  {
  }

  lemma RenewedTo(wts: nat, cts: nat)
    requires wts <= cts
    ensures Renewed(wts, cts).Rts() == cts
  {
  }

  lemma RowEnds(s: State, b: State, t: nat, plan: Plan, cts: nat, r: nat)
    requires Ready(b, t, plan) && b.rows == s.rows && IsCommitTs(b.txns[t].rd, b.txns[t].wr, cts) && r < |s.rows|
    ensures RowAfter(s.rows[r], Back(Decided(b, t, plan, cts), t, plan.wr.Keys).rows[r], r, plan, cts)
  {
    if r in plan.rd {
      RenewedTo(b.txns[t].rd[r].wts, cts);
    }
  }

  /**
   * From any state, a transaction that has not begun, runs a program on rows that are free, and
   * meets nobody, commits: its record is what the program saw and last wrote, and the table
   * holds its writes.
   */
  lemma RunsAlone(s: State, t: nat, ops: seq<Op>, byLength: bool) returns (f: State, c: Committed)
    requires t < |s.txns| && s.txns[t] == Txn(map[], map[], 0, Running) && Proper(ops) && CanReach(s.rows, ops)
    ensures Leads(s, t, byLength, f) && Did(s, f, t, PlanOf(ops), c)
  {
    var plan := PlanOf(ops);
    var b := Execute(s, t, ops, byLength);
    PlanApart(ops);
    PlanRows(ops, s.rows);
    var cts := CommitAlone(s, b, t, plan, byLength);
    var e := Decided(b, t, plan, cts);
    InstallAll(s, e, t, byLength);
    f, c := Back(e, t, plan.wr.Keys), RecordOf(t, b.txns[t].(cts := cts));
    Ends(s, b, t, plan, cts);
  }

  lemma Ends(s: State, b: State, t: nat, plan: Plan, cts: nat)
    requires Ready(b, t, plan) && Private(s, b, t) && IsCommitTs(b.txns[t].rd, b.txns[t].wr, cts)
    ensures Did(s, Back(Decided(b, t, plan, cts), t, plan.wr.Keys), t, plan, RecordOf(t, b.txns[t].(cts := cts)))
  {
    RecordIs(t, b.txns[t].(cts := cts), plan, s.rows);
    var f, c := Back(Decided(b, t, plan, cts), t, plan.wr.Keys), RecordOf(t, b.txns[t].(cts := cts));
    CommitsFirst(b.txns[t], plan, s.rows, cts);
    assert f.hist == Insert(s.hist, c) && |f.rows| == |s.rows|;
    assert forall u :: 0 <= u < |s.txns| && u != t ==> f.txns[u] == s.txns[u];
    forall r | 0 <= r < |s.rows|
      ensures RowAfter(s.rows[r], f.rows[r], r, plan, c.ts)
    {
      RowEnds(s, b, t, plan, cts, r);
    }
  }

  lemma {:induction false} PlanRows(ops: seq<Op>, rows: seq<Row>)
    requires CanReach(rows, ops)
    ensures forall r :: r in PlanOf(ops).Rows() ==> r < |rows| && rows[r].lock == FREE
  {
    if ops != [] {
      var n := |ops| - 1;
      PlanRows(ops[..n], rows);
      assert forall r :: r in PlanOf(ops).Rows() ==> r in PlanOf(ops[..n]).Rows() || r == ops[n].r;
    }
  }
}
