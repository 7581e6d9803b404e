/**
 * A transaction of Silo that nobody interferes with runs its loops to the end, commits, and does
 * what it was asked to (trusted/concurrency_control/silo.cpp:8-151, row_silo.cpp:21-117).
 */
module SiloAlone {
  import opened Wrappers
  import opened Serial
  import opened Programs
  import opened Silo
  import opened SiloLoop
  import opened SiloLoopProof

  /** Steps of `t` alone lead from `c` to `m`. */
  ghost predicate Leads(c: Loops, t: nat, preAbort: bool, m: Loops) {
    exists h: seq<Step> :: LoopsRun(c, h, preAbort) == Some(m) && forall i :: 0 <= i < |h| ==> Actor(h[i]) == t
  }

  lemma Stay(c: Loops, t: nat, preAbort: bool)
    ensures Leads(c, t, preAbort, c)
  {
    assert LoopsRun(c, [], preAbort) == Some(c);
  }

  lemma Go(c: Loops, t: nat, preAbort: bool, m: Loops, b: Step)
    requires Leads(c, t, preAbort, m) && CanStep(m, b) && Actor(b) == t
    ensures Leads(c, t, preAbort, Next(m, b, preAbort))
  {
    var h: seq<Step> :| LoopsRun(c, h, preAbort) == Some(m) && forall i :: 0 <= i < |h| ==> Actor(h[i]) == t;
    var h' := h + [b];
    assert h'[..|h'| - 1] == h;
    assert LoopsRun(c, h', preAbort) == Some(Next(m, b, preAbort));
  }

  /** `a` is an access of `row` as it is. */
  predicate Copies(a: Acc, row: Row) {
    a.tid == row.tid && a.data == row.data
  }

  /** `x` has accessed exactly the rows of the plan, as they are in `rows`. */
  predicate Accesses(x: Txn, plan: Plan, rows: seq<Row>) {
    && x.rd.Keys == plan.rd && x.wr.Keys == plan.wr.Keys
    && (forall r :: r in x.rd ==> r < |rows| && Copies(x.rd[r], rows[r]))
    && (forall r :: r in x.wr ==> r < |rows| && Copies(x.wr[r], rows[r]) && x.wr[r].val == plan.wr[r])
  }

  /** `c` with transaction `t` as `x`. */
  function With(c: Loops, t: nat, x: Txn): Loops
    requires t < |c.s.txns|
  {
    c.(s := SetTxn(c.s, t, x))
  }

  predicate Executing(c: Loops, t: nat) {
    t < |c.ctl| == |c.ws| == |c.s.txns| && c.ctl[t].Exec? && c.s.txns[t].phase.Running?
  }

  // ----- the body

  lemma WorkAlone(c: Loops, t: nat, preAbort: bool, m: Loops, a: Action, y: Txn)
    requires Leads(c, t, preAbort, m) && t < |m.ctl| == |m.ws| == |m.s.txns| && m.ctl[t].Exec?
    requires BodyAction(a) && a.t == t && Enabled(m.s, a) && Apply(m.s, a) == SetTxn(m.s, t, y)
    ensures Leads(c, t, preAbort, With(m, t, y))
  {
    Go(c, t, preAbort, m, Work(a));
    assert Next(m, Work(a), preAbort).ctl == m.ctl;
  }

  lemma SetTwice(m: Loops, t: nat, x: Txn, y: Txn)
    requires t < |m.s.txns|
    ensures With(With(m, t, x), t, y) == With(m, t, y)
  {
  }

  function AccessOf(x: Txn, row: Row, r: nat, w: bool, val: Value, when: nat): Txn {
    var a := Acc(row.tid, row.data, val, when);
    if w then x.(wr := x.wr[r := a]) else x.(rd := x.rd[r := a])
  }

  lemma CopyAlone(c: Loops, t: nat, preAbort: bool, m: Loops, r: nat, w: bool)
    requires Leads(c, t, preAbort, m) && Executing(m, t)
    requires r < |m.s.rows| && m.s.rows[r].lock == FREE && r !in m.s.txns[t].rd && r !in m.s.txns[t].wr
    ensures Leads(c, t, preAbort, With(m, t, m.s.txns[t].(phase := Copied(r, w, m.s.rows[r].tid, m.s.rows[r].data))))
  {
    var x := m.s.txns[t].(phase := Peeked(r, w, m.s.rows[r].tid));
    var y := m.s.txns[t].(phase := Copied(r, w, m.s.rows[r].tid, m.s.rows[r].data));
    WorkAlone(c, t, preAbort, m, Peek(t, r, w), x);
    WorkAlone(c, t, preAbort, With(m, t, x), CopyRow(t), y);
    SetTwice(m, t, x, y);
  }

  /** An access of a free row: look, copy, look again. */
  lemma AccessAlone(c: Loops, t: nat, preAbort: bool, m: Loops, r: nat, w: bool, val: Value)
    requires Leads(c, t, preAbort, m) && Executing(m, t)
    requires r < |m.s.rows| && m.s.rows[r].lock == FREE && r !in m.s.txns[t].rd && r !in m.s.txns[t].wr
    ensures Leads(c, t, preAbort, With(m, t, AccessOf(m.s.txns[t], m.s.rows[r], r, w, val, m.s.clock)))
  {
    CopyAlone(c, t, preAbort, m, r, w);
    var x := m.s.txns[t].(phase := Copied(r, w, m.s.rows[r].tid, m.s.rows[r].data));
    var y := AccessOf(m.s.txns[t], m.s.rows[r], r, w, val, m.s.clock);
    WorkAlone(c, t, preAbort, With(m, t, x), Recheck(t, val), y);
    SetTwice(m, t, x, y);
  }

  lemma ReadPlan(x: Txn, plan: Plan, rows: seq<Row>, r: nat, a: Acc)
    requires Accesses(x, plan, rows) && r < |rows| && Copies(a, rows[r]) && r !in plan.wr
    ensures Accesses(x.(rd := x.rd[r := a]), Then(plan, ReadRow(r)), rows)
  {
  }

  lemma WritePlan(x: Txn, plan: Plan, rows: seq<Row>, r: nat, a: Acc)
    requires Accesses(x, plan, rows) && r < |rows| && Copies(a, rows[r])
    ensures Accesses(x.(wr := x.wr[r := a]), Then(plan, WriteRow(r, a.val)), rows)
  {
  }

  lemma OneOp(c: Loops, t: nat, preAbort: bool, m: Loops, plan: Plan, op: Op) returns (y: Txn)
    requires Leads(c, t, preAbort, m) && Executing(m, t) && Accesses(m.s.txns[t], plan, m.s.rows)
    requires op.r < |m.s.rows| && m.s.rows[op.r].lock == FREE && (op.WriteRow? ==> op.r !in plan.rd)
    ensures Leads(c, t, preAbort, With(m, t, y)) && Accesses(y, Then(plan, op), m.s.rows) && y.phase.Running?
    ensures y.cur == m.s.txns[t].cur
  {
    var r, x := op.r, m.s.txns[t];
    var a := Acc(m.s.rows[r].tid, m.s.rows[r].data, if op.WriteRow? then op.val else 0, m.s.clock);
    if op.ReadRow? && (r in plan.wr || r in plan.rd) {
      assert plan.rd + {r} == plan.rd || r in plan.wr;
      y := x;
      assert With(m, t, x) == m;
    } else if op.ReadRow? {
      AccessAlone(c, t, preAbort, m, r, false, 0);
      ReadPlan(x, plan, m.s.rows, r, a);
      y := x.(rd := x.rd[r := a]);
    } else if r in plan.wr {
      y := x.(wr := x.wr[r := x.wr[r].(val := op.val)]);
      WorkAlone(c, t, preAbort, m, Modify(t, r, op.val), y);
      WritePlan(x, plan, m.s.rows, r, x.wr[r].(val := op.val));
    } else {
      AccessAlone(c, t, preAbort, m, r, true, op.val);
      WritePlan(x, plan, m.s.rows, r, a);
      y := x.(wr := x.wr[r := a]);
    }
  }

  /** The program's rows are within the table and free. */
  predicate CanReach(rows: seq<Row>, ops: seq<Op>) {
    forall i :: 0 <= i < |ops| ==> ops[i].r < |rows| && rows[ops[i].r].lock == FREE
  }

  lemma {:induction false} Execute(c: Loops, t: nat, preAbort: bool, ops: seq<Op>) returns (y: Txn)
    requires Executing(c, t) && c.s.txns[t].rd == map[] && c.s.txns[t].wr == map[] && Proper(ops) && CanReach(c.s.rows, ops)
    ensures Leads(c, t, preAbort, With(c, t, y)) && Accesses(y, PlanOf(ops), c.s.rows) && y.phase.Running? && y.cur == c.s.txns[t].cur
    decreases |ops|
  {
    if ops == [] {
      Stay(c, t, preAbort);
      y := c.s.txns[t];
      assert With(c, t, y) == c;
    } else {
      var n := |ops| - 1;
      var x := Execute(c, t, preAbort, ops[..n]);
      y := OneOp(c, t, preAbort, With(c, t, x), PlanOf(ops[..n]), ops[n]);
      SetTwice(c, t, x, y);
    }
  }

  // ----- the locks

  lemma {:induction false} SortedOf(s: set<nat>) returns (w: seq<nat>)
    ensures Ascending(w) && SetOf(w) == s
    decreases |s|
  {
    if s == {} {
      w := [];
    } else {
      var x := Least(s);
      var v := SortedOf(s - {x});
      w := [x] + v;
      forall i | 0 <= i < |v| ensures x < v[i] { assert v[i] in SetOf(v); }
      assert forall r :: r in w <==> r == x || r in v;
      assert SetOf(w) == {x} + SetOf(v);
      assert s == {x} + (s - {x});
    }
  }

  function LockedRows(rows: seq<Row>, t: nat, held: set<nat>): seq<Row> {
    seq(|rows|, r requires 0 <= r < |rows| => if r in held then rows[r].(lock := t) else rows[r])
  }

  /** `b` with the rows of `held` locked by `t`, which is in `phase` and at `p`, with write set `w`. */
  function Under(b: Loops, t: nat, w: seq<nat>, p: Ctl, phase: Phase, held: set<nat>): Loops
    requires t < |b.s.txns| && t < |b.ctl| && t < |b.ws|
  {
    Loops(b.s.(txns := b.s.txns[t := b.s.txns[t].(phase := phase)], rows := LockedRows(b.s.rows, t, held)),
          b.ctl[t := p], b.ws[t := w])
  }

  /** `t` has executed the plan, its rows are free, and `w` is its sorted write set. */
  predicate Ready(b: Loops, t: nat, plan: Plan, w: seq<nat>) {
    && Executing(b, t) && Accesses(b.s.txns[t], plan, b.s.rows) && plan.rd !! plan.wr.Keys
    && (forall r :: r in plan.Rows() ==> r < |b.s.rows| && b.s.rows[r].lock == FREE)
    && Ascending(w) && SetOf(w) == plan.wr.Keys
  }

  lemma WriteSetRow(b: Loops, t: nat, plan: Plan, w: seq<nat>, n: nat)
    requires Ready(b, t, plan, w) && n < |w|
    ensures w[n] in plan.wr && w[n] < |b.s.rows| && b.s.rows[w[n]].lock == FREE && w[n] in b.s.txns[t].wr && w[n] !in SetOf(w[..n])
    ensures b.s.txns[t].wr[w[n]].tid == b.s.rows[w[n]].tid
    ensures SetOf(w[..n + 1]) == SetOf(w[..n]) + {w[n]}
  {
    assert w[n] in SetOf(w) && w[n] in plan.Rows();
    NotBefore(w, n);
    assert w[..n + 1] == w[..n] + [w[n]];
  }

  lemma OneMoreLocked(rows: seq<Row>, t: nat, held: set<nat>, r: nat)
    requires r < |rows|
    ensures LockedRows(rows, t, held)[r := rows[r].(lock := t)] == LockedRows(rows, t, held + {r})
  {
  }

  lemma LockNext(b: Loops, t: nat, preAbort: bool, w: seq<nat>, n: nat, held: set<nat>)
    requires Executing(b, t) && n < |w| && w[n] !in held && w[n] < |b.s.rows| && b.s.rows[w[n]].lock == FREE
    ensures var m := Under(b, t, w, Try(n), Locking(held), held);
      CanStep(m, Lock(t)) && Next(m, Lock(t), preAbort) == Under(b, t, w, Got(n + 1), Locking(held), held + {w[n]})
  {
    var m, m1 := Under(b, t, w, Try(n), Locking(held), held), Under(b, t, w, Got(n + 1), Locking(held), held + {w[n]});
    OneMoreLocked(b.s.rows, t, held, w[n]);
    assert m.s.rows[w[n]] == b.s.rows[w[n]];
    assert Next(m, Lock(t), preAbort).ctl == m1.ctl;
  }

  lemma CompareNext(b: Loops, t: nat, preAbort: bool, w: seq<nat>, n: nat, held: set<nat>)
    requires Executing(b, t) && n < |w| && w[n] < |b.s.rows| && w[n] in b.s.txns[t].wr && b.s.txns[t].wr[w[n]].tid == b.s.rows[w[n]].tid
    ensures var m := Under(b, t, w, Got(n + 1), Locking(held), held + {w[n]});
      CanStep(m, Compare(t)) && Next(m, Compare(t), preAbort) == Under(b, t, w, Try(n + 1), Locking(held + {w[n]}), held + {w[n]})
  {
    var m := Under(b, t, w, Got(n + 1), Locking(held), held + {w[n]});
    var m1 := Under(b, t, w, Try(n + 1), Locking(held + {w[n]}), held + {w[n]});
    assert Next(m, Compare(t), preAbort).s.txns == m1.s.txns;
    assert Next(m, Compare(t), preAbort).ctl == m1.ctl;
  }

  lemma {:induction false} LockAll(c: Loops, b: Loops, t: nat, preAbort: bool, plan: Plan, w: seq<nat>, n: nat)
    requires Ready(b, t, plan, w) && n <= |w| && Leads(c, t, preAbort, Under(b, t, w, Try(0), Locking({}), {}))
    ensures Leads(c, t, preAbort, Under(b, t, w, Try(n), Locking(SetOf(w[..n])), SetOf(w[..n])))
  {
    if n == 0 {
      assert SetOf(w[..0]) == {};
    } else {
      var k := n - 1;
      LockAll(c, b, t, preAbort, plan, w, k);
      WriteSetRow(b, t, plan, w, k);
      var held := SetOf(w[..k]);
      LockNext(b, t, preAbort, w, k, held);
      Go(c, t, preAbort, Under(b, t, w, Try(k), Locking(held), held), Lock(t));
      CompareNext(b, t, preAbort, w, k, held);
      Go(c, t, preAbort, Under(b, t, w, Got(n), Locking(held), held + {w[k]}), Compare(t));
    }
  }

  /** From the end of the body to the first attempt at the locks. */
  lemma BeginAlone(c: Loops, b: Loops, t: nat, preAbort: bool, plan: Plan, w: seq<nat>)
    requires Ready(b, t, plan, w) && Leads(c, t, preAbort, b)
    ensures Leads(c, t, preAbort, Under(b, t, w, Try(0), Locking({}), {}))
  {
    var m0 := Under(b, t, w, if preAbort then PreCheck else Try(0), Locking({}), {});
    Go(c, t, preAbort, b, Begin(t, w));
    assert Next(b, Begin(t, w), preAbort).s.rows == m0.s.rows;
    if preAbort {
      Go(c, t, preAbort, m0, Passed(t));
      assert Next(m0, Passed(t), preAbort).ctl == Under(b, t, w, Try(0), Locking({}), {}).ctl;
    }
  }

  // ----- validation

  /** All locks are held, and the rows of `valid` validated. */
  function Checked(b: Loops, t: nat, w: seq<nat>, valid: set<nat>): Loops
    requires t < |b.s.txns| && t < |b.ctl| && t < |b.ws|
  {
    var m := Under(b, t, w, Ctl.Validate, Validating(valid), SetOf(w));
    m.(s := m.s.(txns := m.s.txns[t := m.s.txns[t].(stamp := b.s.clock)], clock := b.s.clock + 1))
  }

  lemma CompleteStep(b: Loops, t: nat, preAbort: bool, plan: Plan, w: seq<nat>)
    requires Ready(b, t, plan, w)
    ensures var m := Under(b, t, w, Try(|w|), Locking(SetOf(w)), SetOf(w));
      CanStep(m, Complete(t)) && Next(m, Complete(t), preAbort) == Checked(b, t, w, {})
  {
    var m := Under(b, t, w, Try(|w|), Locking(SetOf(w)), SetOf(w));
    assert Next(m, Complete(t), preAbort).s.txns == Checked(b, t, w, {}).s.txns;
    assert Next(m, Complete(t), preAbort).ctl == Checked(b, t, w, {}).ctl;
  }

  lemma ReadNext(b: Loops, t: nat, preAbort: bool, w: seq<nat>, done: set<nat>, r: nat)
    requires Executing(b, t) && r < |b.s.rows| && r in b.s.txns[t].rd && r !in SetOf(w)
    requires b.s.rows[r].lock == FREE && b.s.rows[r].tid == b.s.txns[t].rd[r].tid
    ensures var m := Checked(b, t, w, done); CanStep(m, Read(t, r)) && Next(m, Read(t, r), preAbort) == Checked(b, t, w, done + {r})
  {
    var m := Checked(b, t, w, done);
    assert m.s.rows[r] == b.s.rows[r];
    assert DoValidate(m.s, t, r).txns == Checked(b, t, w, done + {r}).s.txns;
    assert Next(m, Read(t, r), preAbort).ctl == Checked(b, t, w, done + {r}).ctl;
  }

  lemma ReadAll(c: Loops, b: Loops, t: nat, preAbort: bool, plan: Plan, w: seq<nat>)
    requires Ready(b, t, plan, w) && Leads(c, t, preAbort, Checked(b, t, w, {}))
    ensures Leads(c, t, preAbort, Checked(b, t, w, plan.rd))
  {
    var reached := (d: set<nat>) => Leads(c, t, preAbort, Checked(b, t, w, d));
    forall d, r | d <= plan.rd && r in plan.rd && r !in d && reached(d)
      ensures reached(d + {r})
    {
      assert r in plan.Rows() && r !in SetOf(w);
      ReadNext(b, t, preAbort, w, d, r);
      Go(c, t, preAbort, Checked(b, t, w, d), Read(t, r));
    }
    ForEach(plan.rd, {}, reached);
  }

  lemma HasMaxTid(rd: map<nat, Acc>, wr: map<nat, Acc>) returns (m: nat)
    ensures IsMaxTid(rd, wr, m)
  {
    var a := set r | r in rd :: rd[r].tid;
    var b := set r | r in wr :: wr[r].tid;
    m := Greatest(a + b + {0});
    assert forall r :: r in rd ==> rd[r].tid in a + b + {0};
    assert forall r :: r in wr ==> wr[r].tid in a + b + {0};
  }

  // ----- the commit

  /** `b` at the commit, with the new id. */
  function Decided(b: Loops, t: nat, w: seq<nat>, tid: nat): Loops
    requires t < |b.s.txns| && t < |b.ctl| && t < |b.ws|
  {
    var m := Under(b, t, w, Install(0, 0), Installing({}, {}), SetOf(w));
    var x := b.s.txns[t].(stamp := b.s.clock);
    m.(s := m.s.(txns := m.s.txns[t := x.(phase := Installing({}, {}), cur := tid)], clock := b.s.clock + 1,
                 hist := Insert(b.s.hist, RecordOf(t, x))))
  }

  lemma DecideStep(b: Loops, t: nat, preAbort: bool, plan: Plan, w: seq<nat>, m: nat)
    requires Ready(b, t, plan, w) && IsMaxTid(b.s.txns[t].rd, b.s.txns[t].wr, m)
    ensures var v := Checked(b, t, w, plan.rd);
      CanStep(v, Decide(t, m)) && Next(v, Decide(t, m), preAbort) == Decided(b, t, w, NextTid(b.s.txns[t].cur, m))
  {
    DecideNext(b, t, preAbort, w, plan.rd, m);
  }

  lemma DecideNext(b: Loops, t: nat, preAbort: bool, w: seq<nat>, valid: set<nat>, m: nat)
    requires Executing(b, t) && IsMaxTid(b.s.txns[t].rd, b.s.txns[t].wr, m) && valid == b.s.txns[t].rd.Keys
    ensures var v := Checked(b, t, w, valid);
      CanStep(v, Decide(t, m)) && Next(v, Decide(t, m), preAbort) == Decided(b, t, w, NextTid(b.s.txns[t].cur, m))
  {
    var v, e := Checked(b, t, w, valid), Decided(b, t, w, NextTid(b.s.txns[t].cur, m));
    SameRecord(t, v.s.txns[t], b.s.txns[t].(stamp := b.s.clock));
    assert DoCommit(v.s, t, m).txns == e.s.txns;
    assert Next(v, Decide(t, m), preAbort).ctl == e.ctl;
  }

  lemma SameRecord(t: nat, x: Txn, y: Txn)
    requires x.rd == y.rd && x.wr == y.wr && x.stamp == y.stamp
    ensures RecordOf(t, x) == RecordOf(t, y)
  {
  }

  function BackRows(rows: seq<Row>, x: Txn, done: set<nat>): seq<Row> {
    seq(|rows|, r requires 0 <= r < |rows| => if r in done && r in x.wr then Row(FREE, x.cur, x.wr[r].val) else rows[r])
  }

  lemma OneMoreBack(rows: seq<Row>, x: Txn, done: set<nat>, r: nat, row: Row)
    requires r < |rows| && r in x.wr
    ensures BackRows(rows, x, done)[r := row][r := Row(FREE, x.cur, x.wr[r].val)] == BackRows(rows, x, done + {r})
  {
  }

  /** `e` once `t` has installed and released the first `i` rows of its write set. */
  function Back(e: Loops, t: nat, w: seq<nat>, i: nat): Loops
    requires t < |e.s.txns| && t < |e.ctl| && i <= |w|
  {
    var x := e.s.txns[t];
    e.(s := e.s.(txns := e.s.txns[t := x.(phase := Installing(SetOf(w[..i]), SetOf(w[..i])))],
        rows := BackRows(e.s.rows, x, SetOf(w[..i]))),
       ctl := e.ctl[t := Install(i, 0)])
  }

  predicate Holding(e: Loops, t: nat, w: seq<nat>) {
    && t < |e.s.txns| == |e.ctl| == |e.ws| && e.ws[t] == w && Ascending(w)
    && forall i :: 0 <= i < |w| ==> HoldsRow(e, t, w[i])
  }

  predicate HoldsRow(e: Loops, t: nat, r: nat)
    requires t < |e.s.txns|
  {
    r in e.s.txns[t].wr && r < |e.s.rows| && e.s.rows[r].lock == t
  }

  /** `m` with row `r` and the transaction's phase and place changed. */
  function Puts(m: Loops, t: nat, r: nat, row: Row, phase: Phase, p: Ctl): Loops
    requires t < |m.s.txns| && t < |m.ctl| && r < |m.s.rows|
  {
    MoveTo(m, t, SetTxn(SetRow(m.s, r, row), t, m.s.txns[t].(phase := phase)), p)
  }

  lemma PutData(e: Loops, t: nat, preAbort: bool, w: seq<nat>, i: nat)
    requires Holding(e, t, w) && i < |w|
    ensures var x, r, d, m := e.s.txns[t], w[i], SetOf(w[..i]), Back(e, t, w, i);
      && CanStep(m, Put(t))
      && Next(m, Put(t), preAbort) == Puts(m, t, r, e.s.rows[r].(data := x.wr[r].val), Installing(d + {r}, d), Install(i, 1))
  {
    NotBefore(w, i);
    assert HoldsRow(e, t, w[i]);
    assert Back(e, t, w, i).s.rows[w[i]] == e.s.rows[w[i]];
  }

  lemma PutWord(e: Loops, t: nat, preAbort: bool, w: seq<nat>, i: nat)
    requires Holding(e, t, w) && i < |w|
    ensures var x, r, d, m := e.s.txns[t], w[i], SetOf(w[..i]), Back(e, t, w, i);
      var m1 := Puts(m, t, r, e.s.rows[r].(data := x.wr[r].val), Installing(d + {r}, d), Install(i, 1));
      && CanStep(m1, Put(t))
      && Next(m1, Put(t), preAbort) == Puts(m, t, r, Row(t, x.cur, x.wr[r].val), Installing(d + {r}, d + {r}), Install(i, 2))
  {
    var x, r, d, m := e.s.txns[t], w[i], SetOf(w[..i]), Back(e, t, w, i);
    var m1 := Puts(m, t, r, e.s.rows[r].(data := x.wr[r].val), Installing(d + {r}, d), Install(i, 1));
    var m2 := Puts(m, t, r, Row(t, x.cur, x.wr[r].val), Installing(d + {r}, d + {r}), Install(i, 2));
    assert Next(m1, Put(t), preAbort).s.rows == m2.s.rows;
    assert Next(m1, Put(t), preAbort).s.txns == m2.s.txns;
    assert Next(m1, Put(t), preAbort).ctl == m2.ctl;
  }

  lemma PutRelease(e: Loops, t: nat, preAbort: bool, w: seq<nat>, i: nat)
    requires Holding(e, t, w) && i < |w|
    ensures var x, r, d, m := e.s.txns[t], w[i], SetOf(w[..i]), Back(e, t, w, i);
      var m2 := Puts(m, t, r, Row(t, x.cur, x.wr[r].val), Installing(d + {r}, d + {r}), Install(i, 2));
      CanStep(m2, Put(t)) && Next(m2, Put(t), preAbort) == Back(e, t, w, i + 1)
  {
    var x, r, d, m := e.s.txns[t], w[i], SetOf(w[..i]), Back(e, t, w, i);
    var m2 := Puts(m, t, r, Row(t, x.cur, x.wr[r].val), Installing(d + {r}, d + {r}), Install(i, 2));
    OneMoreDone(w, i);
    OneMoreBack(e.s.rows, x, d, r, Row(t, x.cur, x.wr[r].val));
    assert Next(m2, Put(t), preAbort).s.txns == Back(e, t, w, i + 1).s.txns;
    assert Next(m2, Put(t), preAbort).ctl == Back(e, t, w, i + 1).ctl;
  }

  lemma OneMoreDone(w: seq<nat>, i: nat)
    requires i < |w|
    ensures SetOf(w[..i + 1]) == SetOf(w[..i]) + {w[i]}
  {
    assert w[..i + 1] == w[..i] + [w[i]];
  }

  lemma PutStep(c: Loops, e: Loops, t: nat, preAbort: bool, w: seq<nat>, i: nat)
    requires Holding(e, t, w) && i < |w| && Leads(c, t, preAbort, Back(e, t, w, i))
    ensures Leads(c, t, preAbort, Back(e, t, w, i + 1))
  {
    var x, r, d, m := e.s.txns[t], w[i], SetOf(w[..i]), Back(e, t, w, i);
    assert HoldsRow(e, t, r);
    PutData(e, t, preAbort, w, i);
    Go(c, t, preAbort, m, Put(t));
    PutWord(e, t, preAbort, w, i);
    Go(c, t, preAbort, Puts(m, t, r, e.s.rows[r].(data := x.wr[r].val), Installing(d + {r}, d), Install(i, 1)), Put(t));
    PutRelease(e, t, preAbort, w, i);
    Go(c, t, preAbort, Puts(m, t, r, Row(t, x.cur, x.wr[r].val), Installing(d + {r}, d + {r}), Install(i, 2)), Put(t));
  }

  lemma {:induction false} PutAll(c: Loops, e: Loops, t: nat, preAbort: bool, w: seq<nat>, n: nat)
    requires Holding(e, t, w) && n <= |w| && Leads(c, t, preAbort, Back(e, t, w, 0))
    ensures Leads(c, t, preAbort, Back(e, t, w, n))
  {
    if n > 0 {
      var i := n - 1;
      PutAll(c, e, t, preAbort, w, i);
      PutStep(c, e, t, preAbort, w, i);
    }
  }

  // ----- the whole transaction

  /** The record is of the program: what it saw, and what it last wrote. */
  predicate Recorded(rec: Committed, t: nat, plan: Plan, rows: seq<Row>) {
    && rec.id == t && rec.writeSet == plan.wr && rec.readSet.Keys == plan.Rows()
    && forall r :: r in rec.readSet ==> r < |rows| && rec.readSet[r] == rows[r].data
  }

  /** The writes are in the rows, free and under one id above those the program met; the other rows are as they were. */
  predicate Stored(rows: seq<Row>, rows': seq<Row>, plan: Plan, tid: nat) {
    && |rows'| == |rows| && (forall r :: r in plan.Rows() ==> r < |rows| && rows[r].tid < tid)
    && forall r :: 0 <= r < |rows| ==> rows'[r] == if r in plan.wr then Row(FREE, tid, plan.wr[r]) else rows[r]
  }

  /** One record more, the transaction done, the others as they were. */
  predicate Finished(c: Loops, f: Loops, t: nat, rec: Committed) {
    && f.s.hist == Insert(c.s.hist, rec) && t < |f.s.txns| == |c.s.txns| && t < |c.ctl| && f.ctl == c.ctl[t := Done]
    && f.s.txns[t].phase.Installing? && forall u :: 0 <= u < |c.s.txns| && u != t ==> f.s.txns[u] == c.s.txns[u]
  }

  lemma RecordIs(t: nat, x: Txn, plan: Plan, rows: seq<Row>)
    requires Accesses(x, plan, rows) && plan.rd !! plan.wr.Keys
    ensures Recorded(RecordOf(t, x), t, plan, rows)
  {
  }

  /** From the body to the commit. */
  lemma CommitAlone(c: Loops, b: Loops, t: nat, preAbort: bool, plan: Plan, w: seq<nat>) returns (tid: nat)
    requires Ready(b, t, plan, w) && Leads(c, t, preAbort, b)
    ensures Leads(c, t, preAbort, Decided(b, t, w, tid))
    ensures forall r :: r in plan.Rows() ==> r < |b.s.rows| && b.s.rows[r].tid < tid
  {
    BeginAlone(c, b, t, preAbort, plan, w);
    LockAll(c, b, t, preAbort, plan, w, |w|);
    assert w[..|w|] == w;
    CompleteStep(b, t, preAbort, plan, w);
    Go(c, t, preAbort, Under(b, t, w, Try(|w|), Locking(SetOf(w)), SetOf(w)), Complete(t));
    ReadAll(c, b, t, preAbort, plan, w);
    var m := HasMaxTid(b.s.txns[t].rd, b.s.txns[t].wr);
    DecideStep(b, t, preAbort, plan, w, m);
    Go(c, t, preAbort, Checked(b, t, w, plan.rd), Decide(t, m));
    tid := NextTid(b.s.txns[t].cur, m);
    IdAbove(b, t, plan, w, m);
  }

  lemma IdAbove(b: Loops, t: nat, plan: Plan, w: seq<nat>, m: nat)
    requires Ready(b, t, plan, w) && IsMaxTid(b.s.txns[t].rd, b.s.txns[t].wr, m)
    ensures forall r :: r in plan.Rows() ==> r < |b.s.rows| && b.s.rows[r].tid < NextTid(b.s.txns[t].cur, m)
  {
    var x := b.s.txns[t];
    forall r | r in plan.Rows()
      ensures b.s.rows[r].tid < NextTid(x.cur, m)
    {
      assert r in x.rd || r in x.wr;
    }
  }

  /** From the commit to the end. */
  lemma InstallAlone(c: Loops, e: Loops, t: nat, preAbort: bool, w: seq<nat>)
    requires Holding(e, t, w) && e.s.txns[t].phase == Installing({}, {}) && e.ctl[t] == Install(0, 0) && Leads(c, t, preAbort, e)
    ensures var m := Back(e, t, w, |w|); Leads(c, t, preAbort, m.(ctl := m.ctl[t := Done]))
  {
    assert Back(e, t, w, 0) == e by {
      assert SetOf(w[..0]) == {};
      assert Back(e, t, w, 0).s.rows == e.s.rows && Back(e, t, w, 0).s.txns == e.s.txns && Back(e, t, w, 0).ctl == e.ctl;
    }
    PutAll(c, e, t, preAbort, w, |w|);
    Go(c, t, preAbort, Back(e, t, w, |w|), End(t));
  }

  lemma RowEnds(b: Loops, t: nat, plan: Plan, w: seq<nat>, tid: nat, r: nat)
    requires Ready(b, t, plan, w) && r < |b.s.rows|
    ensures Back(Decided(b, t, w, tid), t, w, |w|).s.rows[r] == if r in plan.wr then Row(FREE, tid, plan.wr[r]) else b.s.rows[r]
  {
    assert w[..|w|] == w;
    assert r in plan.wr <==> r in SetOf(w);
  }

  lemma RowsEnd(b: Loops, t: nat, plan: Plan, w: seq<nat>, tid: nat)
    requires Ready(b, t, plan, w) && forall r :: r in plan.Rows() ==> r < |b.s.rows| && b.s.rows[r].tid < tid
    ensures Stored(b.s.rows, Back(Decided(b, t, w, tid), t, w, |w|).s.rows, plan, tid)
  {
    forall r | 0 <= r < |b.s.rows|
      ensures Back(Decided(b, t, w, tid), t, w, |w|).s.rows[r] == if r in plan.wr then Row(FREE, tid, plan.wr[r]) else b.s.rows[r]
    {
      RowEnds(b, t, plan, w, tid, r);
    }
  }

  lemma OthersEnd(c: Loops, b: Loops, t: nat, w: seq<nat>, tid: nat)
    requires t < |c.s.txns| == |b.s.txns| && t < |c.ctl| && t < |c.ws| && b == With(c, t, b.s.txns[t])
    ensures var m := Back(Decided(b, t, w, tid), t, w, |w|);
      Finished(c, m.(ctl := m.ctl[t := Done]), t, RecordOf(t, b.s.txns[t].(stamp := b.s.clock)))
  {
    var m := Back(Decided(b, t, w, tid), t, w, |w|);
    assert m.ctl[t := Done] == c.ctl[t := Done];
  }

  /**
   * From any state of the loops, a transaction that has accessed nothing yet, runs a program on
   * rows that are free, and meets nobody, commits: its record is what the program saw and last
   * wrote, and the table holds its writes, all under one id above those it met.
   */
  lemma RunsAlone(c: Loops, t: nat, preAbort: bool, ops: seq<Op>) returns (f: Loops, rec: Committed, tid: nat)
    requires Executing(c, t) && c.s.txns[t].rd == map[] && c.s.txns[t].wr == map[] && Proper(ops) && CanReach(c.s.rows, ops)
    ensures Leads(c, t, preAbort, f) && Recorded(rec, t, PlanOf(ops), c.s.rows)
    ensures Stored(c.s.rows, f.s.rows, PlanOf(ops), tid) && Finished(c, f, t, rec)
  {
    var plan := PlanOf(ops);
    var x := Execute(c, t, preAbort, ops);
    var b := With(c, t, x);
    PlanApart(ops);
    PlanRows(ops, c.s.rows);
    var w := SortedOf(plan.wr.Keys);
    tid := CommitAlone(c, b, t, preAbort, plan, w);
    var e := Decided(b, t, w, tid);
    HoldsAll(b, t, plan, w, tid);
    InstallAlone(c, e, t, preAbort, w);
    var m := Back(e, t, w, |w|);
    f, rec := m.(ctl := m.ctl[t := Done]), RecordOf(t, x.(stamp := c.s.clock));
    RecordIs(t, x.(stamp := c.s.clock), plan, c.s.rows);
    RowsEnd(b, t, plan, w, tid);
    OthersEnd(c, b, t, w, tid);
  }

  lemma HoldsAll(b: Loops, t: nat, plan: Plan, w: seq<nat>, tid: nat)
    requires Ready(b, t, plan, w)
    ensures Holding(Decided(b, t, w, tid), t, w)
  {
    forall i | 0 <= i < |w|
      ensures HoldsRow(Decided(b, t, w, tid), t, w[i])
    {
      WriteSetRow(b, t, plan, w, i);
      assert w[i] in SetOf(w);
    }
  }

  lemma {:induction false} PlanRows(ops: seq<Op>, rows: seq<Row>)
    requires CanReach(rows, ops)
    ensures forall r :: r in PlanOf(ops).Rows() ==> r < |rows| && rows[r].lock == FREE
  {
    if ops != [] {
      var n := |ops| - 1;
      PlanRows(ops[..n], rows);
      assert forall r :: r in PlanOf(ops).Rows() ==> r in PlanOf(ops[..n]).Rows() || r == ops[n].r;
    }
  }
}
