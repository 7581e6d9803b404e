/**
 * What transactions of Silo asked for, told from the schedule and the rows alone
 * (trusted/concurrency_control/row_silo.cpp:21-68, silo.cpp:132-147): a commit records exactly what
 * its transaction saw and last wrote, and takes the least id above what it met.
 */
module SiloClient {
  import opened Wrappers
  import opened Serial
  import opened Silo
  import opened SiloProof

  /** An access under way: the row and its id at the first look, and the tuple copied. */
  datatype Open = Open(r: nat, write: bool, tid: nat, copy: Value)

  /** A transaction as its calls tell it: what it saw, and the last value it wrote to each row. */
  datatype Client = Client(open: Open, seen: map<nat, Value>, writes: map<nat, Value>)

  /** The second look finds the row unlocked and with the same id. */
  predicate Accepted(m: State, o: Open) {
    o.r < |m.rows| && m.rows[o.r].lock == FREE && m.rows[o.r].tid == o.tid
  }

  /** The effect of one call, given the rows at that moment. */
  function Calls(m: State, c: Client, t: nat, a: Action): Client {
    if a.t != t then c
    else
      match a
      case Peek(_, r, w) => if r < |m.rows| then c.(open := Open(r, w, m.rows[r].tid, 0)) else c
      case CopyRow(_) => if c.open.r < |m.rows| then c.(open := c.open.(copy := m.rows[c.open.r].data)) else c
      case Recheck(_, val) =>
        if !Accepted(m, c.open) then c
        else c.(seen := c.seen[c.open.r := c.open.copy], writes := if c.open.write then c.writes[c.open.r := val] else c.writes)
      case Modify(_, r, val) => c.(writes := c.writes[r := val])
      case _ => c
  }

  function ClientOf(s: State, schedule: seq<Action>, t: nat): Client {
    if schedule == [] then Client(Open(0, false, 0, 0), map[], map[])
    else
      var n := |schedule| - 1;
      var c := ClientOf(s, schedule[..n], t);
      if Run(s, schedule[..n]).Some? then Calls(Run(s, schedule[..n]).value, c, t, schedule[n]) else c
  }

  predicate Serves(x: Txn, c: Client) {
    && x.wr.Keys == c.writes.Keys && x.rd.Keys + x.wr.Keys == c.seen.Keys && x.rd.Keys !! x.wr.Keys
    && (forall r :: r in x.wr ==> x.wr[r].val == c.writes[r] && x.wr[r].data == c.seen[r])
    && (forall r :: r in x.rd ==> x.rd[r].data == c.seen[r])
    && match x.phase
       case Peeked(r, w, v) => c.open.r == r && c.open.write == w && c.open.tid == v && r !in x.rd && r !in x.wr
       case Copied(r, w, v, copy) => c.open == Open(r, w, v, copy) && r !in x.rd && r !in x.wr
       case _ => true
  }

  lemma ServesAccess(x: Txn, c: Client, a: Acc, y: Txn)
    requires Serves(x, c) && x.phase.Copied? && a.data == c.open.copy
    requires y == if c.open.write then x.(phase := Running, wr := x.wr[c.open.r := a]) else x.(phase := Running, rd := x.rd[c.open.r := a])
    ensures Serves(y, c.(seen := c.seen[c.open.r := c.open.copy], writes := if c.open.write then c.writes[c.open.r := a.val] else c.writes))
  {
  }

  lemma ServesModify(x: Txn, c: Client, r: nat, val: Value)
    requires Serves(x, c) && r in x.wr && x.phase.Running?
    ensures Serves(x.(wr := x.wr[r := x.wr[r].(val := val)]), c.(writes := c.writes[r := val]))
  {
  }

  predicate OfBody(a: Action) {
    a.Peek? || a.CopyRow? || a.Recheck? || a.Modify?
  }

  lemma OthersSame(s: State, a: Action, t: nat)
    requires Enabled(s, a) && t < |s.txns| && a.t != t
    ensures t < |Apply(s, a).txns| && Apply(s, a).txns[t] == s.txns[t]
  {
  }

  /** Steps that are not of its body leave the accesses alone. */
  lemma OwnSame(s: State, a: Action)
    requires Enabled(s, a) && !OfBody(a)
    ensures var s' := Apply(s, a);
      && a.t < |s'.txns| && s'.txns[a.t].rd == s.txns[a.t].rd && s'.txns[a.t].wr == s.txns[a.t].wr
      && !s'.txns[a.t].phase.Peeked? && !s'.txns[a.t].phase.Copied?
  {
  }

  lemma StepServes(s: State, a: Action, t: nat, c: Client)
    requires Enabled(s, a) && t < |s.txns| && Serves(s.txns[t], c)
    ensures t < |Apply(s, a).txns| && Serves(Apply(s, a).txns[t], Calls(s, c, t, a))
  {
    if a.t == t && a.Recheck? {
      if Accepted(s, c.open) {
        var p := s.txns[t].phase;
        ServesAccess(s.txns[t], c, Acc(p.v, p.copy, a.val, s.clock), Apply(s, a).txns[t]);
      }
    } else if a.t == t && a.Modify? {
      ServesModify(s.txns[t], c, a.r, a.val);
    } else if a.t != t {
      OthersSame(s, a, t);
    } else if !OfBody(a) {
      OwnSame(s, a);
    }
  }

  lemma StepTxns(s: State, a: Action)
    requires Enabled(s, a)
    ensures |Apply(s, a).txns| == |s.txns|
  {
  }

  lemma {:induction false} RunServes(s: State, schedule: seq<Action>, t: nat)
    requires Init(s) && Run(s, schedule).Some? && t < |s.txns|
    ensures |Run(s, schedule).value.txns| == |s.txns| && Serves(Run(s, schedule).value.txns[t], ClientOf(s, schedule, t))
  {
    if schedule != [] {
      var n := |schedule| - 1;
      RunServes(s, schedule[..n], t);
      StepTxns(Run(s, schedule[..n]).value, schedule[n]);
      StepServes(Run(s, schedule[..n]).value, schedule[n], t, ClientOf(s, schedule[..n], t));
    }
  }

  lemma {:induction false} RunTxns(s: State, schedule: seq<Action>)
    requires Run(s, schedule).Some?
    ensures |Run(s, schedule).value.txns| == |s.txns|
  {
    if schedule != [] {
      RunTxns(s, schedule[..|schedule| - 1]);
      StepTxns(Run(s, schedule[..|schedule| - 1]).value, schedule[|schedule| - 1]);
    }
  }

  lemma RecordServes(t: nat, x: Txn, c: Client)
    requires Serves(x, c)
    ensures RecordOf(t, x).readSet == c.seen && RecordOf(t, x).writeSet == c.writes
  {
  }

  /** Every commit of every run records exactly the values its transaction saw and those it wrote last. */
  lemma CommitsAsAsked(s: State, schedule: seq<Action>, c: Committed)
    requires Init(s) && Run(s, schedule).Some? && c in Run(s, schedule).value.hist
    ensures c.readSet == ClientOf(s, schedule, c.id).seen && c.writeSet == ClientOf(s, schedule, c.id).writes
  {
    RunInv(s, schedule);
    RunTxns(s, schedule);
    RunServes(s, schedule, c.id);
    RecordServes(c.id, Run(s, schedule).value.txns[c.id], ClientOf(s, schedule, c.id));
  }

  // ----- what validation finds

  /** The rows that `t` has accessed and somebody has written since, told from the schedule. */
  function Overwritten(s: State, schedule: seq<Action>, t: nat): set<nat> {
    if schedule == [] then {}
    else
      var n := |schedule| - 1;
      var a, before := schedule[n], Overwritten(s, schedule[..n], t);
      if a.WriteWord? && a.r in ClientOf(s, schedule[..n], t).seen then before + {a.r} else before
  }

  predicate IdStands(m: State, r: nat, tid: nat) {
    r < |m.rows| && m.rows[r].tid == tid
  }

  /** Until its decision, the ids a transaction met stand exactly on the rows not written since. */
  predicate IdsTell(m: State, x: Txn, over: set<nat>) {
    Live(x.phase) ==>
      && (forall r :: r in x.rd ==> (IdStands(m, r, x.rd[r].tid) <==> r !in over))
      && (forall r :: r in x.wr ==> (IdStands(m, r, x.wr[r].tid) <==> r !in over))
  }

  lemma {:induction false} OverwrittenSeen(s: State, schedule: seq<Action>, t: nat)
    ensures Overwritten(s, schedule, t) <= ClientOf(s, schedule, t).seen.Keys
  {
    if schedule != [] { OverwrittenSeen(s, schedule[..|schedule| - 1], t); }
  }

  /** How a step may change the ids: a write raises one, nothing else changes any. */
  predicate IdsRise(s: State, s': State, a: Action) {
    && |s'.rows| == |s.rows|
    && forall r :: 0 <= r < |s.rows| ==> if a.WriteWord? && a.r == r then s.rows[r].tid < s'.rows[r].tid
        else s'.rows[r].tid == s.rows[r].tid
  }

  function OverAfter(over: set<nat>, a: Action, seen: map<nat, Value>): set<nat> {
    if a.WriteWord? && a.r in seen then over + {a.r} else over
  }

  lemma AccTells(s: State, s': State, a: Action, r: nat, tid: nat, over: set<nat>, seen: map<nat, Value>)
    requires IdsRise(s, s', a) && r in seen && r < |s.rows| && tid <= s.rows[r].tid && (IdStands(s, r, tid) <==> r !in over)
    ensures IdStands(s', r, tid) <==> r !in OverAfter(over, a, seen)
  {
  }

  /** The accesses after a step that adds none. */
  predicate SameIds(x: Txn, y: Txn) {
    && (Live(y.phase) ==> Live(x.phase)) && y.rd == x.rd && y.wr.Keys == x.wr.Keys
    && forall r :: r in x.wr ==> y.wr[r].tid == x.wr[r].tid
  }

  lemma StepTells(s: State, s': State, a: Action, x: Txn, y: Txn, c: Client, over: set<nat>)
    requires |s.db| == |s.rows| && IdsRise(s, s', a) && Serves(x, c) && IdsTell(s, x, over) && SameIds(x, y)
    requires Live(x.phase) ==> forall r :: r in x.rd ==> r < |s.rows| && x.rd[r].tid <= s.rows[r].tid
    requires Live(x.phase) ==> forall r :: r in x.wr ==> r < |s.rows| && x.wr[r].tid <= s.rows[r].tid
    ensures IdsTell(s', y, OverAfter(over, a, c.seen))
  {
    if Live(y.phase) {
      forall r | r in y.rd
        ensures IdStands(s', r, y.rd[r].tid) <==> r !in OverAfter(over, a, c.seen)
      {
        AccTells(s, s', a, r, x.rd[r].tid, over, c.seen);
      }
      forall r | r in y.wr
        ensures IdStands(s', r, y.wr[r].tid) <==> r !in OverAfter(over, a, c.seen)
      {
        AccTells(s, s', a, r, x.wr[r].tid, over, c.seen);
      }
    }
  }

  lemma KeepsIds(s: State, a: Action, t: nat)
    requires Enabled(s, a) && t < |s.txns| && !(a.t == t && a.Recheck?)
    ensures t < |Apply(s, a).txns| && SameIds(s.txns[t], Apply(s, a).txns[t])
  {
    if a.t != t { OthersSame(s, a, t); } else if !OfBody(a) { OwnSame(s, a); }
  }

  /** An accepted access meets the id that stands. */
  lemma RecheckTells(s: State, t: nat, val: Value, c: Client, over: set<nat>)
    requires Enabled(s, Recheck(t, val)) && Serves(s.txns[t], c) && IdsTell(s, s.txns[t], over) && over <= c.seen.Keys
    ensures IdsTell(DoRecheck(s, t, val), DoRecheck(s, t, val).txns[t], over)
  {
    var s', x := DoRecheck(s, t, val), s.txns[t];
    var y, q := s'.txns[t], x.phase.row;
    assert q !in c.seen;
    assert forall r, tid :: IdStands(s', r, tid) == IdStands(s, r, tid);
    if Accepted(s, c.open) {
      forall r | r in y.rd
        ensures IdStands(s', r, y.rd[r].tid) <==> r !in over
      {
        assert r != q ==> r in x.rd && y.rd[r] == x.rd[r];
      }
      forall r | r in y.wr
        ensures IdStands(s', r, y.wr[r].tid) <==> r !in over
      {
        assert r != q ==> r in x.wr && y.wr[r] == x.wr[r];
      }
    }
  }

  lemma IdsMet(s: State, t: nat)
    requires Inv(s) && t < |s.txns| && Live(s.txns[t].phase)
    ensures forall r :: r in s.txns[t].rd ==> r < |s.rows| && s.txns[t].rd[r].tid <= s.rows[r].tid
    ensures forall r :: r in s.txns[t].wr ==> r < |s.rows| && s.txns[t].wr[r].tid <= s.rows[r].tid
  {
    assert TxnOK(s, t);
    assert forall r :: r in s.txns[t].rd ==> AccOK(s, r, s.txns[t].rd[r]);
    assert forall r :: r in s.txns[t].wr ==> AccOK(s, r, s.txns[t].wr[r]);
  }

  lemma RiseStep(s: State, schedule: seq<Action>, a: Action)
    requires Init(s) && Run(s, schedule).Some? && Enabled(Run(s, schedule).value, a)
    ensures IdsRise(Run(s, schedule).value, Apply(Run(s, schedule).value, a), a)
  {
    var m := Run(s, schedule).value;
    RunRows(s, schedule);
    RowCount(m, a);
    forall r | 0 <= r < |m.rows|
      ensures if a.WriteWord? && a.r == r then m.rows[r].tid < Apply(m, a).rows[r].tid else Apply(m, a).rows[r].tid == m.rows[r].tid
    {
      TidsIncrease(s, schedule, a, r);
    }
  }

  lemma RowCount(s: State, a: Action)
    requires Enabled(s, a)
    ensures |Apply(s, a).rows| == |s.rows|
  {
  }

  lemma {:induction false} RunTells(s: State, schedule: seq<Action>, t: nat)
    requires Init(s) && Run(s, schedule).Some? && t < |s.txns|
    ensures |Run(s, schedule).value.txns| == |s.txns|
        && IdsTell(Run(s, schedule).value, Run(s, schedule).value.txns[t], Overwritten(s, schedule, t))
  {
    RunTxns(s, schedule);
    if schedule != [] {
      var n := |schedule| - 1;
      var m, a, c, over := Run(s, schedule[..n]).value, schedule[n], ClientOf(s, schedule[..n], t), Overwritten(s, schedule[..n], t);
      RunTells(s, schedule[..n], t);
      RunServes(s, schedule[..n], t);
      OverwrittenSeen(s, schedule[..n], t);
      if a.t == t && a.Recheck? {
        RecheckTells(m, t, a.val, c, over);
      } else {
        RunInv(s, schedule[..n]);
        if Live(m.txns[t].phase) { IdsMet(m, t); }
        RiseStep(s, schedule[..n], a);
        KeepsIds(m, a, t);
        StepTells(m, Apply(m, a), a, m.txns[t], Apply(m, a).txns[t], c, over);
      }
    }
  }

  /**
   * In every run: the check after a lock, and the validation of a read, refuse a transaction if and
   * only if somebody has written the row since it accessed it, or, for a read, has it locked.
   */
  lemma ValidationExact(s: State, schedule: seq<Action>, t: nat, r: nat)
    requires Init(s) && Run(s, schedule).Some?
    ensures var m := Run(s, schedule).value;
      Enabled(m, Check(t, r)) ==>
        Apply(m, Check(t, r)) == SetTxn(m, t, m.txns[t].(phase :=
          if r in Overwritten(s, schedule, t) then Aborting else Locking(m.txns[t].phase.checked + {r})))
    ensures var m := Run(s, schedule).value;
      Enabled(m, Validate(t, r)) ==>
        Apply(m, Validate(t, r)) == SetTxn(m, t, m.txns[t].(phase :=
          if r in Overwritten(s, schedule, t) || m.rows[r].lock != FREE then Aborting else Validating(m.txns[t].phase.valid + {r})))
  {
    RunTxns(s, schedule);
    if t < |s.txns| {
      RunTells(s, schedule, t);
    }
  }

  // ----- the new id

  /** Above the thread's last id and every id it met. */
  predicate Above(cur: nat, rd: map<nat, Acc>, wr: map<nat, Acc>, tid: nat) {
    cur < tid && (forall r :: r in rd ==> rd[r].tid < tid) && (forall r :: r in wr ==> wr[r].tid < tid)
  }

  /** A commit takes the least such id. */
  lemma CommitIdIsLeast(s: State, t: nat, m: nat)
    requires Enabled(s, Commit(t, m))
    ensures var x, tid := s.txns[t], Apply(s, Commit(t, m)).txns[t].cur;
      Above(x.cur, x.rd, x.wr, tid) && forall n: nat :: Above(x.cur, x.rd, x.wr, n) ==> tid <= n
  {
  }
}
