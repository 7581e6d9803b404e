/**
 * A transaction of per-row OCC that nobody interferes with commits, and does what it was asked to
 * (trusted/concurrency_control/occ.cpp:36-100, row_occ.cpp:17-57).
 */
module OccAlone {
  import opened Wrappers
  import opened Serial
  import opened Programs
  import opened Occ
  import opened OccLatches

  /** Steps of `t` alone lead from `s` to `m`. */
  ghost predicate Leads(s: State, t: nat, m: State) {
    exists h: seq<Action> :: Run(s, h) == Some(m) && forall i :: 0 <= i < |h| ==> h[i].t == t
  }

  lemma Stay(s: State, t: nat)
    ensures Leads(s, t, s)
  {
    assert Run(s, []) == Some(s);
  }

  lemma Go(s: State, t: nat, m: State, a: Action)
    requires Leads(s, t, m) && Enabled(m, a) && a.t == t
    ensures Leads(s, t, Apply(m, a))
  {
    var h: seq<Action> :| Run(s, h) == Some(m) && forall i :: 0 <= i < |h| ==> h[i].t == t;
    var h' := h + [a];
    assert h'[..|h'| - 1] == h;
    assert Run(s, h') == Some(Apply(m, a));
  }

  /** The rows are within the table, free, and not written after `start`. */
  predicate Clear(s: State, rows: set<nat>, start: nat) {
    forall r :: r in rows ==> r < |s.rows| && s.rows[r].latch == FREE && s.rows[r].wts <= start
  }

  /** `x` has accessed exactly the rows of the plan, as they are in `rows`. */
  predicate Accesses(x: Txn, plan: Plan, rows: seq<Row>) {
    && x.rd.Keys == plan.rd && x.wr.Keys == plan.wr.Keys
    && (forall r :: r in x.rd ==> r < |rows| && x.rd[r].data == rows[r].data)
    && (forall r :: r in x.wr ==> r < |rows| && x.wr[r].data == rows[r].data && x.wr[r].val == plan.wr[r])
  }

  /** Only `t` has moved, and only on its own. */
  predicate Private(s: State, m: State, t: nat) {
    t < |s.txns| == |m.txns| && m == s.(txns := s.txns[t := m.txns[t]])
  }

  predicate Reachable(row: Row, start: nat) {
    row.latch == FREE && row.wts <= start
  }

  lemma ReadOp(s: State, t: nat, plan: Plan, r: nat)
    requires t < |s.txns| && s.txns[t].phase.Running? && Accesses(s.txns[t], plan, s.rows)
    requires r < |s.rows| && Reachable(s.rows[r], s.txns[t].start) && r !in plan.wr && r !in plan.rd
    ensures Enabled(s, Access(t, r, false, 0))
    ensures var m := Apply(s, Access(t, r, false, 0));
      Private(s, m, t) && m.txns[t].phase.Running? && m.txns[t].start == s.txns[t].start
      && Accesses(m.txns[t], Then(plan, ReadRow(r)), s.rows)
  {
  }

  lemma WriteOp(s: State, t: nat, plan: Plan, r: nat, val: Value)
    requires t < |s.txns| && s.txns[t].phase.Running? && Accesses(s.txns[t], plan, s.rows)
    requires r < |s.rows| && Reachable(s.rows[r], s.txns[t].start) && r !in plan.rd
    ensures var a := if r in plan.wr then Modify(t, r, val) else Access(t, r, true, val);
      && Enabled(s, a)
      && var m := Apply(s, a);
      && Private(s, m, t) && m.txns[t].phase.Running? && m.txns[t].start == s.txns[t].start
      && Accesses(m.txns[t], Then(plan, WriteRow(r, val)), s.rows)
  {
  }

  lemma OneOp(s: State, m: State, t: nat, plan: Plan, op: Op) returns (m': State)
    requires Leads(s, t, m) && t < |m.txns| && m.txns[t].phase.Running? && Accesses(m.txns[t], plan, m.rows)
    requires op.r < |m.rows| && Reachable(m.rows[op.r], m.txns[t].start) && (op.WriteRow? ==> op.r !in plan.rd)
    ensures Leads(s, t, m') && Private(m, m', t) && m'.txns[t].phase.Running? && m'.txns[t].start == m.txns[t].start
    ensures Accesses(m'.txns[t], Then(plan, op), m.rows)
  {
    var r := op.r;
    if op.ReadRow? && (r in plan.wr || r in plan.rd) {
      assert plan.rd + {r} == plan.rd || r in plan.wr;
      m' := m;
    } else {
      var a := if op.ReadRow? then Access(t, r, false, 0) else if r in plan.wr then Modify(t, r, op.val) else Access(t, r, true, op.val);
      if op.ReadRow? { ReadOp(m, t, plan, r); } else { WriteOp(m, t, plan, r, op.val); }
      Go(s, t, m, a);
      m' := Apply(m, a);
    }
  }

  /** The program's rows are within the table, free, and not written after `start`. */
  predicate CanReach(rows: seq<Row>, ops: seq<Op>, start: nat) {
    forall i :: 0 <= i < |ops| ==> ops[i].r < |rows| && Reachable(rows[ops[i].r], start)
  }

  lemma {:induction false} Execute(s: State, m: State, t: nat, ops: seq<Op>) returns (m': State)
    requires Leads(s, t, m) && t < |m.txns| && m.txns[t].phase.Running? && m.txns[t].rd == map[] && m.txns[t].wr == map[]
    requires Proper(ops) && CanReach(m.rows, ops, m.txns[t].start)
    ensures Leads(s, t, m') && Private(m, m', t) && m'.txns[t].phase.Running? && m'.txns[t].start == m.txns[t].start
    ensures Accesses(m'.txns[t], PlanOf(ops), m.rows)
    decreases |ops|
  {
    if ops == [] {
      m' := m;
    } else {
      var n := |ops| - 1;
      m' := Execute(s, m, t, ops[..n]);
      m' := OneOp(s, m', t, PlanOf(ops[..n]), ops[n]);
    }
  }

  // ----- validation

  function Rows(x: Txn): set<nat> {
    x.rd.Keys + x.wr.Keys
  }

  /** `b` with the rows of `held` latched and validated by `t`. */
  function Latched(b: State, t: nat, held: set<nat>): State
    requires t < |b.txns|
  {
    b.(txns := b.txns[t := b.txns[t].(phase := Latching(held))],
       rows := seq(|b.rows|, r requires 0 <= r < |b.rows| => if r in held then b.rows[r].(latch := t) else b.rows[r]))
  }

  lemma LatchStep(b: State, t: nat, held: set<nat>, r: nat)
    requires t < |b.txns| && r < |b.rows| && r !in held && b.rows[r].latch == FREE && b.rows[r].wts <= b.txns[t].start
    requires Next(Latched(b, t, held).txns[t], r)
    ensures Enabled(Latched(b, t, held), Latch(t, r)) && Apply(Latched(b, t, held), Latch(t, r)) == Latched(b, t, held + {r})
  {
    var m, m' := Apply(Latched(b, t, held), Latch(t, r)), Latched(b, t, held + {r});
    assert m.rows == m'.rows;
    assert m.txns == m'.txns;
  }

  lemma {:induction false} LatchAll(s: State, b: State, t: nat, held: set<nat>)
    requires t < |b.txns| && Leads(s, t, Latched(b, t, held))
    requires Clear(b, Rows(b.txns[t]), b.txns[t].start) && held <= Rows(b.txns[t])
    ensures Leads(s, t, Latched(b, t, Rows(b.txns[t])))
    decreases |Rows(b.txns[t]) - held|
  {
    var left := Rows(b.txns[t]) - held;
    if left == {} {
      assert forall q :: q in Rows(b.txns[t]) ==> q in held || q in left;
      assert Rows(b.txns[t]) == held;
    } else {
      var r := Least(left);
      NextIsLeast(Latched(b, t, held).txns[t], held, r);
      LatchStep(b, t, held, r);
      Go(s, t, Latched(b, t, held), Latch(t, r));
      assert Rows(b.txns[t]) - (held + {r}) == left - {r};
      LatchAll(s, b, t, held + {r});
    }
  }

  lemma NextIsLeast(x: Txn, held: set<nat>, r: nat)
    requires x.phase == Latching(held) && r in Rows(x) - held && forall y :: y in Rows(x) - held ==> r <= y
    ensures Next(x, r)
  {
    forall q: nat | Accessed(x, q) && q < r
      ensures q in held
    {
      assert q in held || q in Rows(x) - held;
    }
    assert forall q :: q in x.rd && q < r ==> Accessed(x, q);
    assert forall q :: q in x.wr && q < r ==> Accessed(x, q);
  }

  // ----- the commit

  function Back(x: Txn, row: Row, r: nat, done: set<nat>, freed: set<nat>): Row {
    var o := if r in done && r in x.wr then Row(row.latch, x.end, x.wr[r].val, row.version + 1) else row;
    if r in freed then o.(latch := FREE) else o
  }

  /** `b` once `t` has written the rows of `done` back and released those of `freed`. */
  function Written(b: State, t: nat, done: set<nat>, freed: set<nat>): State
    requires t < |b.txns|
  {
    b.(txns := b.txns[t := b.txns[t].(phase := Writing(done))],
       rows := seq(|b.rows|, r requires 0 <= r < |b.rows| => Back(b.txns[t], b.rows[r], r, done, freed)))
  }

  lemma WriteStep(b: State, t: nat, done: set<nat>, r: nat)
    requires t < |b.txns| && r < |b.rows| && r !in done && r in b.txns[t].wr
    ensures Enabled(Written(b, t, done, {}), Write(t, r)) && Apply(Written(b, t, done, {}), Write(t, r)) == Written(b, t, done + {r}, {})
  {
    var m, m' := Apply(Written(b, t, done, {}), Write(t, r)), Written(b, t, done + {r}, {});
    assert m.rows == m'.rows;
    assert m.txns == m'.txns;
  }

  lemma WriteAll(s: State, b: State, t: nat)
    requires t < |b.txns| && Leads(s, t, Written(b, t, {}, {})) && forall r :: r in b.txns[t].wr ==> r < |b.rows|
    ensures Leads(s, t, Written(b, t, b.txns[t].wr.Keys, {}))
  {
    var reached := (d: set<nat>) => Leads(s, t, Written(b, t, d, {}));
    forall d, r | d <= b.txns[t].wr.Keys && r in b.txns[t].wr.Keys && r !in d && reached(d)
      ensures reached(d + {r})
    {
      WriteStep(b, t, d, r);
      Go(s, t, Written(b, t, d, {}), Write(t, r));
    }
    ForEach(b.txns[t].wr.Keys, {}, reached);
  }

  lemma ReleaseStep(b: State, t: nat, freed: set<nat>, r: nat)
    requires t < |b.txns| && r < |b.rows| && r !in freed && b.rows[r].latch == t
    ensures var all := b.txns[t].wr.Keys;
      Enabled(Written(b, t, all, freed), Release(t, r))
          && Apply(Written(b, t, all, freed), Release(t, r)) == Written(b, t, all, freed + {r})
  {
    var all := b.txns[t].wr.Keys;
    var m, m' := Apply(Written(b, t, all, freed), Release(t, r)), Written(b, t, all, freed + {r});
    assert m.rows == m'.rows;
  }

  lemma ReleaseAll(s: State, b: State, t: nat, held: set<nat>)
    requires t < |b.txns| && Leads(s, t, Written(b, t, b.txns[t].wr.Keys, {}))
    requires forall r :: r in held ==> r < |b.rows| && b.rows[r].latch == t
    ensures Leads(s, t, Written(b, t, b.txns[t].wr.Keys, held))
  {
    var all := b.txns[t].wr.Keys;
    var reached := (d: set<nat>) => Leads(s, t, Written(b, t, all, d));
    forall d, r | d <= held && r in held && r !in d && reached(d)
      ensures reached(d + {r})
    {
      ReleaseStep(b, t, d, r);
      Go(s, t, Written(b, t, all, d), Release(t, r));
    }
    ForEach(held, {}, reached);
  }

  // ----- the whole transaction

  /** What the transaction leaves: one record more, and its writes in the rows. */
  ghost predicate Did(s: State, f: State, t: nat, plan: Plan, c: Committed) {
    && c.id == t && c.writeSet == plan.wr && c.readSet.Keys == plan.Rows()
    && c.ts == (if s.single then s.outside + 1 else s.inside)
    && (forall r :: r in c.readSet ==> r < |s.rows| && c.readSet[r] == s.rows[r].data)
    && f.hist == Insert(s.hist, c) && |f.rows| == |s.rows| && |f.txns| == |s.txns|
    && (forall r :: 0 <= r < |s.rows| ==>
          f.rows[r] == if r in plan.wr then Row(FREE, c.ts, plan.wr[r], s.rows[r].version + 1) else s.rows[r])
    && (forall u :: 0 <= u < |s.txns| && u != t ==> f.txns[u] == s.txns[u])
  }

  /** `e` is `b` after `t` has latched its rows and taken its end timestamp. */
  predicate Validated(b: State, e: State, t: nat) {
    && t < |b.txns|
    && var x := b.txns[t].(phase := Writing({}), end := EndClock(b));
    && e.hist == Insert(b.hist, RecordOf(t, x)) && e.txns == b.txns[t := x] && e.rows == Latched(b, t, Rows(x)).rows
  }

  lemma Validates(s: State, b: State, t: nat) returns (e: State)
    requires t < |b.txns| && Leads(s, t, b) && b.txns[t].phase.Running? && Clear(b, Rows(b.txns[t]), b.txns[t].start)
    ensures Leads(s, t, e) && Validated(b, e, t)
  {
    Go(s, t, b, BeginLatching(t));
    NothingLatched(b, t);
    LatchAll(s, b, t, {});
    var m := Latched(b, t, Rows(b.txns[t]));
    Go(s, t, m, TakeEnd(t));
    e := Apply(m, TakeEnd(t));
    assert e.txns == b.txns[t := b.txns[t].(phase := Writing({}), end := EndClock(b))];
  }

  lemma NothingLatched(b: State, t: nat)
    requires Enabled(b, BeginLatching(t))
    ensures Apply(b, BeginLatching(t)) == Latched(b, t, {})
  {
    assert b.rows == Latched(b, t, {}).rows;
  }

  lemma Installs(s: State, e: State, t: nat)
    requires t < |e.txns| && Leads(s, t, e) && e.txns[t].phase == Writing({})
    requires forall r :: r in Rows(e.txns[t]) ==> r < |e.rows| && e.rows[r].latch == t
    ensures Leads(s, t, Written(e, t, e.txns[t].wr.Keys, Rows(e.txns[t])))
  {
    var m := Written(e, t, {}, {});
    assert m == e by {
      assert m.rows == e.rows && m.txns == e.txns;
    }
    forall r | r in e.txns[t].wr ensures r < |e.rows| { assert r in Rows(e.txns[t]); }
    WriteAll(s, e, t);
    ReleaseAll(s, e, t, Rows(e.txns[t]));
  }

  lemma RecordIs(t: nat, x: Txn, plan: Plan, rows: seq<Row>)
    requires Accesses(x, plan, rows) && plan.rd !! plan.wr.Keys
    ensures var c := RecordOf(t, x);
      && c.id == t && c.ts == x.end && c.writeSet == plan.wr && c.readSet.Keys == plan.Rows()
      && forall r :: r in c.readSet ==> r < |rows| && c.readSet[r] == rows[r].data
  {
  }

  /**
   * From any state, a transaction that has not begun, runs a program on rows that are free and
   * not written after its start, and meets nobody, commits: its record is what the program saw
   * and last wrote, and the table holds its writes.
   */
  lemma RunsAlone(s: State, t: nat, ops: seq<Op>) returns (f: State, c: Committed)
    requires t < |s.txns| && s.txns[t] == FRESH && Proper(ops) && CanReach(s.rows, ops, s.outside)
    ensures Leads(s, t, f) && Did(s, f, t, PlanOf(ops), c)
  {
    Stay(s, t);
    Go(s, t, s, Begin(t));
    var b := Execute(s, Apply(s, Begin(t)), t, ops);
    var plan := PlanOf(ops);
    PlanApart(ops);
    PlanRows(ops, s);
    assert Rows(b.txns[t]) == plan.Rows();
    var e := Validates(s, b, t);
    Installs(s, e, t);
    f, c := Written(e, t, e.txns[t].wr.Keys, Rows(e.txns[t])), RecordOf(t, e.txns[t]);
    Ends(s, b, e, t, plan);
  }

  /** The rows at the end. */
  lemma Ends(s: State, b: State, e: State, t: nat, plan: Plan)
    requires t < |s.txns| == |b.txns| && b.rows == s.rows && b.hist == s.hist && b.txns == s.txns[t := b.txns[t]]
    requires b.outside == s.outside + 1 && b.inside == s.inside && b.single == s.single
    requires Validated(b, e, t) && Accesses(b.txns[t], plan, s.rows) && plan.rd !! plan.wr.Keys
    requires forall r :: r in plan.Rows() ==> r < |s.rows| && s.rows[r].latch == FREE
    ensures t < |e.txns| && Did(s, Written(e, t, e.txns[t].wr.Keys, Rows(e.txns[t])), t, plan, RecordOf(t, e.txns[t]))
  {
    var x := e.txns[t];
    RecordIs(t, x, plan, s.rows);
    assert Rows(x) == plan.Rows();
    var f := Written(e, t, x.wr.Keys, Rows(x));
    forall r | 0 <= r < |s.rows|
      ensures f.rows[r] == if r in plan.wr then Row(FREE, x.end, plan.wr[r], s.rows[r].version + 1) else s.rows[r]
    {
      assert e.rows[r] == if r in Rows(x) then s.rows[r].(latch := t) else s.rows[r];
    }
  }

  lemma {:induction false} PlanRows(ops: seq<Op>, s: State)
    requires CanReach(s.rows, ops, s.outside)
    ensures Clear(s, PlanOf(ops).Rows(), s.outside)
  {
    if ops != [] {
      var n := |ops| - 1;
      PlanRows(ops[..n], s);
      assert forall r :: r in PlanOf(ops).Rows() ==> r in PlanOf(ops[..n]).Rows() || r == ops[n].r;
    }
  }

  /** With one counter that is so in every run: a transaction that finds its rows free commits. */
  lemma CommitsAlone(s: State, schedule: seq<Action>, t: nat, ops: seq<Op>) returns (f: State, c: Committed)
    requires Init(s) && s.single && Run(s, schedule).Some? && Proper(ops)
    requires var m := Run(s, schedule).value;
      && t < |m.txns| && m.txns[t] == FRESH
      && forall i :: 0 <= i < |ops| ==> ops[i].r < |m.rows| && m.rows[ops[i].r].latch == FREE
    ensures var m := Run(s, schedule).value; Leads(m, t, f) && Did(m, f, t, PlanOf(ops), c)
  {
    RunBasic(s, schedule);
    RunSingle(s, schedule);
    var m := Run(s, schedule).value;
    forall i | 0 <= i < |ops|
      ensures Reachable(m.rows[ops[i].r], m.outside)
    {
      assert LatchHeld(m, ops[i].r) && m.rows[ops[i].r].wts < EndClock(m);
    }
    f, c := RunsAlone(m, t, ops);
  }

  lemma {:induction false} RunSingle(s: State, schedule: seq<Action>)
    requires Run(s, schedule).Some?
    ensures Run(s, schedule).value.single == s.single
  {
    if schedule != [] {
      RunSingle(s, schedule[..|schedule| - 1]);
      StepSingle(Run(s, schedule[..|schedule| - 1]).value, schedule[|schedule| - 1]);
    }
  }

  lemma StepSingle(s: State, a: Action)
    requires Enabled(s, a)
    ensures Apply(s, a).single == s.single
  {
  }
}
