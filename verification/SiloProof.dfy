/**
 * Silo is serializable in the order in which write locks became complete.
 */
module SiloProof {
  import opened Wrappers
  import opened Serial
  import opened Silo

  /** Locked by a committed transaction that has not yet stored its id. */
  predicate Busy(s: State, r: nat)
    requires r < |s.rows|
  {
    var o := s.rows[r].lock;
    0 <= o < |s.txns| && s.txns[o].phase.Installing? && r !in s.txns[o].phase.worded
  }

  /** The last value committed to `r`. */
  function Latest(s: State, r: nat): Value
    requires r < |s.db|
  {
    ValueOf(s.hist, s.db[r], r)
  }

  ghost predicate RowOK(s: State, r: nat)
    requires r < |s.db| == |s.rows|
  {
    var row := s.rows[r];
    if Busy(s, r) then
      var o := s.txns[row.lock];
      && r in o.wr && o.wr[r].val == Latest(s, r)
      && (r in o.phase.written ==> row.data == o.wr[r].val)
    else row.data == Latest(s, r)
  }

  /** All committed writers of `r` are earlier than `t`. */
  ghost predicate WritersBefore(s: State, r: nat, t: nat) {
    forall i :: 0 <= i < |s.hist| && r in s.hist[i].writeSet ==> s.hist[i].ts < t
  }

  ghost predicate AccessorsBefore(s: State, r: nat, t: nat) {
    forall i :: 0 <= i < |s.hist| && Accesses(s.hist[i], r) ==> s.hist[i].ts < t
  }

  /** An access: while the id stands, so does the tuple, and nothing was committed since. */
  ghost predicate AccOK(s: State, r: nat, a: Acc)
    requires r < |s.db| == |s.rows|
  {
    && a.tid <= s.rows[r].tid && a.when <= s.clock
    && (a.tid == s.rows[r].tid && !Busy(s, r) ==> s.rows[r].data == a.data && WritersBefore(s, r, a.when))
  }

  predicate Live(p: Phase) {
    !p.Installing? && !p.Aborting?
  }

  predicate Stamped(p: Phase) {
    p.Validating? || p.Installing?
  }

  /** Locked by `t`, at the version `t` read. */
  predicate Mine(s: State, t: nat, r: nat)
    requires t < |s.txns|
  {
    r < |s.rows| && r in s.txns[t].wr && s.rows[r].lock == t && s.rows[r].tid == s.txns[t].wr[r].tid
  }

  predicate LocksOK(s: State, t: nat)
    requires t < |s.txns|
  {
    var x := s.txns[t];
    && (forall r :: r in x.rd ==> r < |s.rows| && r !in x.wr)
    && (forall r :: r in x.wr ==> r < |s.rows|)
    && match x.phase
       case Running => true
       case Peeked(row, _, v) => row < |s.rows| && row !in x.rd && row !in x.wr && v <= s.rows[row].tid
       case Copied(row, _, v, _) => row < |s.rows| && row !in x.rd && row !in x.wr && v <= s.rows[row].tid
       case Locking(checked) => forall r :: r in checked ==> Mine(s, t, r)
       case Validating(valid) => (forall r :: r in x.wr ==> Mine(s, t, r)) && x.stamp < s.clock
       case Installing(written, worded) =>
         && (forall r :: r in worded ==> r in written)
         && (forall r :: r in written ==> r in x.wr)
         && (forall r :: r in x.wr && r !in worded ==> s.rows[r].lock == t && s.rows[r].tid < x.cur)
         && x.stamp < s.clock
       case Aborting => true
  }

  ghost predicate AccsOK(s: State, t: nat)
    requires t < |s.txns| && |s.db| == |s.rows| && LocksOK(s, t)
  {
    var x := s.txns[t];
    Live(x.phase) ==>
      && (forall r :: r in x.rd ==> AccOK(s, r, x.rd[r]))
      && (forall r :: r in x.wr ==> AccOK(s, r, x.wr[r]))
      && (x.phase.Copied? && s.rows[x.phase.row].tid == x.phase.v && !Busy(s, x.phase.row) ==> x.phase.copy == s.rows[x.phase.row].data)
      && (x.phase.Validating? ==>
            && (forall r :: r in x.rd ==> x.rd[r].when <= x.stamp)
            && (forall r :: r in x.wr ==> x.wr[r].when <= x.stamp))
  }

  /** Validated rows have the value that was read at the stamp, and no later stamp can undercut it. */
  ghost predicate ValidOK(s: State, t: nat, r: nat)
    requires t < |s.txns| && r < |s.db| == |s.rows| && r in s.txns[t].rd
  {
    var x := s.txns[t];
    && At(s.hist, s.db[r], r, x.stamp) == x.rd[r].data
    && (var o := s.rows[r].lock; 0 <= o < |s.txns| && Stamped(s.txns[o].phase) ==> x.stamp < s.txns[o].stamp)
  }

  ghost predicate StampOK(s: State, t: nat)
    requires t < |s.txns| && |s.db| == |s.rows| && LocksOK(s, t)
  {
    var x := s.txns[t];
    x.phase.Validating? ==>
      && (forall r :: r in x.phase.valid ==> r in x.rd && ValidOK(s, t, r))
      && (forall r :: r in x.wr ==> AccessorsBefore(s, r, x.stamp))
  }

  ghost predicate TxnOK(s: State, t: nat)
    requires t < |s.txns| && |s.db| == |s.rows|
  {
    LocksOK(s, t) && AccsOK(s, t) && StampOK(s, t)
  }

  predicate LockHeld(s: State, r: nat)
    requires r < |s.rows|
  {
    var o := s.rows[r].lock;
    o == FREE || (0 <= o < |s.txns| && r in s.txns[o].wr && !s.txns[o].phase.Running? && !s.txns[o].phase.Peeked?
        && !s.txns[o].phase.Copied?)
  }

  ghost predicate HistoryOK(s: State) {
    && DistinctIds(s.hist)
    && (forall c :: c in s.hist ==> c.id < |s.txns| && s.txns[c.id].phase.Installing? && c == RecordOf(c.id, s.txns[c.id]))
    && (forall t :: 0 <= t < |s.txns| && s.txns[t].phase.Installing? ==> RecordOf(t, s.txns[t]) in s.hist)
  }

  ghost predicate Inv(s: State) {
    && |s.db| == |s.rows|
    && Sorted(s.hist) && Consistent(s.db, s.hist) && HistoryOK(s)
    && (forall i :: 0 <= i < |s.hist| ==> s.hist[i].ts < s.clock)
    && (forall r :: 0 <= r < |s.rows| ==> LockHeld(s, r) && RowOK(s, r))
    && (forall t :: 0 <= t < |s.txns| ==> TxnOK(s, t))
  }

  lemma InitInv(s: State)
    requires Init(s)
    ensures Inv(s)
  {
  }

  // ----- steps that do not commit

  /** What another transaction's action may do to a row that `u` has not locked. */
  predicate Grows(s: State, s': State, r: nat)
    requires r < |s.rows| == |s'.rows|
  {
    && s.rows[r].tid <= s'.rows[r].tid
    && (s.rows[r].tid == s'.rows[r].tid && !Busy(s', r) ==> !Busy(s, r) && s.rows[r].data == s'.rows[r].data)
  }

  /** The holder of the lock of `r`, if it has a stamp, is the old one or has the newest stamp. */
  predicate HolderOK(s: State, s': State, r: nat)
    requires r < |s.rows| == |s'.rows|
  {
    var o := s'.rows[r].lock;
    0 <= o < |s'.txns| && Stamped(s'.txns[o].phase) ==>
      s'.txns[o].stamp == s.clock ||
      (o == s.rows[r].lock && o < |s.txns| && Stamped(s.txns[o].phase) && s'.txns[o].stamp == s.txns[o].stamp)
  }

  lemma Undisturbed(s: State, s': State, u: nat)
    requires u < |s.txns| == |s'.txns| && |s.db| == |s.rows| == |s'.rows|
    requires s'.db == s.db && s'.hist == s.hist && s'.txns[u] == s.txns[u] && s.clock <= s'.clock
    requires TxnOK(s, u)
    requires forall r :: 0 <= r < |s.rows| ==> Grows(s, s', r) && HolderOK(s, s', r)
    requires forall r :: 0 <= r < |s.rows| && s.rows[r].lock == u ==> s'.rows[r] == s.rows[r]
    ensures TxnOK(s', u)
  {
    var x := s.txns[u];
    forall r, a | 0 <= r < |s.rows| && AccOK(s, r, a)
      ensures AccOK(s', r, a)
    {
      assert Grows(s, s', r);
    }
    if Live(x.phase) {
      assert forall r :: r in x.rd ==> AccOK(s, r, x.rd[r]);
      assert forall r :: r in x.wr ==> AccOK(s, r, x.wr[r]);
      if x.phase.Peeked? || x.phase.Copied? {
        assert Grows(s, s', x.phase.row);
      }
    }
    if x.phase.Validating? {
      forall r | r in x.phase.valid
        ensures r in x.rd && ValidOK(s', u, r)
      {
        assert ValidOK(s, u, r);
        assert HolderOK(s, s', r);
      }
      forall r | r in x.wr
        ensures AccessorsBefore(s', r, x.stamp)
      {
        assert AccessorsBefore(s, r, x.stamp);
      }
    }
  }

  ghost predicate SameBut(p: Phase, q: Phase, r: nat) {
    && p.Installing? == q.Installing?
    && (p.Installing? ==> forall k :: k != r ==> (k in p.worded <==> k in q.worded) && (k in p.written <==> k in q.written))
  }

  /** Only `t` moves, and it neither is nor becomes committed. */
  lemma LocalStep(s: State, t: nat, y: Txn, clock: nat)
    requires Inv(s) && t < |s.txns| && s.clock <= clock
    requires !s.txns[t].phase.Installing? && !y.phase.Installing?
    requires y.phase.Validating? ==> y.stamp == s.clock || (s.txns[t].phase.Validating? && y.stamp == s.txns[t].stamp)
    requires TxnOK(SetTxn(s, t, y).(clock := clock), t)
    requires forall r :: 0 <= r < |s.rows| && s.rows[r].lock == t ==> r in y.wr && !y.phase.Running? && !y.phase.Peeked? && !y.phase.Copied?
    ensures Inv(SetTxn(s, t, y).(clock := clock))
  {
    var s' := SetTxn(s, t, y).(clock := clock);
    forall r | 0 <= r < |s'.rows|
      ensures LockHeld(s', r) && RowOK(s', r)
    {
      assert LockHeld(s, r) && RowOK(s, r);
    }
    forall u | 0 <= u < |s'.txns|
      ensures TxnOK(s', u)
    {
      assert TxnOK(s, u);
      if u != t {
        assert forall r :: 0 <= r < |s.rows| ==> Grows(s, s', r) && HolderOK(s, s', r);
        Undisturbed(s, s', u);
      }
    }
    assert HistoryOK(s');
  }

  /** `t` changes one row, which was free or its own, and moves without touching its access sets. */
  lemma RowStep(s: State, t: nat, y: Txn, r: nat, row: Row)
    requires Inv(s) && t < |s.txns| && r < |s.rows|
    requires y.rd == s.txns[t].rd && y.wr == s.txns[t].wr && y.stamp == s.txns[t].stamp
    requires SameBut(s.txns[t].phase, y.phase, r) && s.txns[t].phase.Validating? == y.phase.Validating?
    requires s.rows[r].lock == FREE || s.rows[r].lock == t
    requires row.lock == FREE || (row.lock == t && r in y.wr && !y.phase.Running? && !y.phase.Peeked? && !y.phase.Copied?)
    requires forall q :: 0 <= q < |s.rows| && s.rows[q].lock == t ==> !y.phase.Running? && !y.phase.Peeked? && !y.phase.Copied?
    requires Stamped(y.phase) ==> s.rows[r].lock == t
    requires Grows(s, SetTxn(SetRow(s, r, row), t, y), r)
    requires RowOK(SetTxn(SetRow(s, r, row), t, y), r)
    requires TxnOK(SetTxn(SetRow(s, r, row), t, y), t)
    ensures Inv(SetTxn(SetRow(s, r, row), t, y))
  {
    var s' := SetTxn(SetRow(s, r, row), t, y);
    forall q | 0 <= q < |s'.rows|
      ensures LockHeld(s', q) && RowOK(s', q) && Grows(s, s', q) && HolderOK(s, s', q)
    {
      assert LockHeld(s, q) && RowOK(s, q);
      if q != r {
        RowElsewhere(s, t, y, r, row, q);
      }
    }
    forall u | 0 <= u < |s'.txns|
      ensures TxnOK(s', u)
    {
      assert TxnOK(s, u);
      if u != t {
        Undisturbed(s, s', u);
      }
    }
    SameRecords(s, s', t);
  }

  lemma RowElsewhere(s: State, t: nat, y: Txn, r: nat, row: Row, q: nat)
    requires |s.db| == |s.rows| && t < |s.txns| && r < |s.rows| && q < |s.rows| && q != r
    requires y.wr == s.txns[t].wr && y.stamp == s.txns[t].stamp
    requires SameBut(s.txns[t].phase, y.phase, r) && s.txns[t].phase.Validating? == y.phase.Validating?
    requires RowOK(s, q)
    ensures var s' := SetTxn(SetRow(s, r, row), t, y); RowOK(s', q) && Grows(s, s', q) && HolderOK(s, s', q)
  {
    var s' := SetTxn(SetRow(s, r, row), t, y);
    assert s'.rows[q] == s.rows[q] && Busy(s', q) == Busy(s, q);
  }

  lemma SameRecords(s: State, s': State, t: nat)
    requires HistoryOK(s) && t < |s.txns| == |s'.txns| && s'.hist == s.hist
    requires forall u :: 0 <= u < |s.txns| && u != t ==> s'.txns[u] == s.txns[u]
    requires s'.txns[t].rd == s.txns[t].rd && s'.txns[t].wr == s.txns[t].wr && s'.txns[t].stamp == s.txns[t].stamp
    requires s'.txns[t].phase.Installing? == s.txns[t].phase.Installing?
    ensures HistoryOK(s')
  {
    assert forall u :: 0 <= u < |s.txns| ==> RecordOf(u, s'.txns[u]) == RecordOf(u, s.txns[u]);
  }

  lemma NoLocksYet(s: State, t: nat)
    requires Inv(s) && t < |s.txns| && (s.txns[t].phase.Running? || s.txns[t].phase.Peeked? || s.txns[t].phase.Copied?)
    ensures forall q :: 0 <= q < |s.rows| ==> s.rows[q].lock != t
  {
    forall q | 0 <= q < |s.rows|
      ensures s.rows[q].lock != t
    {
      assert LockHeld(s, q);
    }
  }

  lemma ExecutedTxn(s: State, a: Action)
    requires |s.db| == |s.rows| && Enabled(s, a) && (a.Peek? || a.CopyRow? || a.BeginLocking?) && TxnOK(s, a.t)
    requires a.Peek? ==> RowOK(s, a.r)
    ensures TxnOK(Apply(s, a), a.t)
  {
    var s', x := Apply(s, a), s.txns[a.t];
    assert forall q :: 0 <= q < |s.rows| ==> Busy(s', q) == Busy(s, q);
    SameAccs(s, s');
    assert forall q :: q in x.rd ==> AccOK(s, q, x.rd[q]);
    assert forall q :: q in x.wr ==> AccOK(s, q, x.wr[q]);
  }

  lemma ModifiedTxn(s: State, a: Action)
    requires |s.db| == |s.rows| && a.Modify? && Enabled(s, a) && TxnOK(s, a.t)
    ensures TxnOK(Apply(s, a), a.t)
  {
    var s', x, y := Apply(s, a), s.txns[a.t], Apply(s, a).txns[a.t];
    assert forall q :: 0 <= q < |s.rows| ==> Busy(s', q) == Busy(s, q);
    SameAccs(s, s');
    assert forall q :: q in x.rd ==> AccOK(s, q, x.rd[q]);
    assert forall q :: q in x.wr ==> AccOK(s, q, x.wr[q]);
    assert forall q :: q in x.wr ==> q in y.wr && y.wr[q].(val := 0) == x.wr[q].(val := 0);
  }

  lemma KeepExecution(s: State, a: Action)
    requires Inv(s) && Enabled(s, a) && (a.Peek? || a.CopyRow? || a.Recheck? || a.Modify? || a.BeginLocking?)
    ensures Inv(Apply(s, a))
  {
    assert TxnOK(s, a.t);
    if a.Recheck? {
      RecheckAccs(s, a.t, a.val);
    } else if a.Modify? {
      ModifiedTxn(s, a);
    } else {
      if a.Peek? {
        assert RowOK(s, a.r);
      }
      ExecutedTxn(s, a);
    }
    NoLocksYet(s, a.t);
    LocalStep(s, a.t, Apply(s, a).txns[a.t], s.clock);
  }

  lemma RecheckAccs(s: State, t: nat, val: Value)
    requires Inv(s) && Enabled(s, Recheck(t, val))
    ensures TxnOK(DoRecheck(s, t, val), t)
  {
    assert TxnOK(s, t);
    var s', x := DoRecheck(s, t, val), s.txns[t];
    assert WritersBefore(s, x.phase.row, s.clock);
    forall r, a | 0 <= r < |s.rows| && AccOK(s, r, a) ensures AccOK(s', r, a) { }
  }

  /** Check and Abort only move the transaction. */
  lemma KeepLocal(s: State, a: Action)
    requires Inv(s) && Enabled(s, a) && (a.Check? || a.Abort?)
    ensures Inv(Apply(s, a))
  {
    assert TxnOK(s, a.t);
    LocksOf(s, a.t);
    MovedTxn(s, a);
    LocalStep(s, a.t, Apply(s, a).txns[a.t], s.clock);
  }

  lemma MovedTxn(s: State, a: Action)
    requires |s.db| == |s.rows| && Enabled(s, a) && (a.Check? || a.Abort?) && TxnOK(s, a.t)
    ensures TxnOK(Apply(s, a), a.t)
  {
    var s', t := Apply(s, a), a.t;
    assert forall q :: Mine(s', t, q) == Mine(s, t, q);
    if Live(s'.txns[t].phase) {
      assert forall q :: 0 <= q < |s.rows| ==> Busy(s', q) == Busy(s, q);
      SameAccs(s, s');
      assert forall q :: q in s.txns[t].rd ==> AccOK(s, q, s.txns[t].rd[q]);
      assert forall q :: q in s.txns[t].wr ==> AccOK(s, q, s.txns[t].wr[q]);
    }
  }

  lemma KeepValidate(s: State, t: nat, r: nat)
    requires Inv(s) && Enabled(s, Validate(t, r))
    ensures Inv(DoValidate(s, t, r))
  {
    assert TxnOK(s, t);
    var s' := DoValidate(s, t, r);
    forall q | 0 <= q < |s.rows| && s.rows[q].lock == t ensures q in s.txns[t].wr { assert LockHeld(s, q); }
    if s'.txns[t].phase.Validating? {
      ReadAtStamp(s, t, r);
      ValidatedTxn(s, t, r);
    }
    LocalStep(s, t, s'.txns[t], s.clock);
  }

  lemma ValidatedTxn(s: State, t: nat, r: nat)
    requires |s.db| == |s.rows| && Enabled(s, Validate(t, r)) && TxnOK(s, t)
    requires s.rows[r].lock == FREE && s.rows[r].tid == s.txns[t].rd[r].tid
    requires At(s.hist, s.db[r], r, s.txns[t].stamp) == s.txns[t].rd[r].data
    ensures TxnOK(DoValidate(s, t, r), t)
  {
    ValidatedAccs(s, t, r);
    ValidatedStamp(s, t, r);
  }

  lemma SameAccs(s: State, s': State)
    requires |s.db| == |s.rows| && s'.db == s.db && s'.rows == s.rows && s'.hist == s.hist && s.clock <= s'.clock
    requires forall r :: 0 <= r < |s.rows| ==> Busy(s', r) == Busy(s, r)
    ensures forall r, a :: 0 <= r < |s.rows| && AccOK(s, r, a) ==> AccOK(s', r, a)
  {
  }

  lemma ValidatedAccs(s: State, t: nat, r: nat)
    requires |s.db| == |s.rows| && Enabled(s, Validate(t, r)) && TxnOK(s, t)
    requires s.rows[r].lock == FREE && s.rows[r].tid == s.txns[t].rd[r].tid
    ensures LocksOK(DoValidate(s, t, r), t) && AccsOK(DoValidate(s, t, r), t)
  {
    var s', x := DoValidate(s, t, r), s.txns[t];
    assert forall q :: Mine(s', t, q) == Mine(s, t, q);
    assert forall q :: 0 <= q < |s.rows| ==> Busy(s', q) == Busy(s, q);
    SameAccs(s, s');
    assert forall q :: q in x.rd ==> AccOK(s, q, x.rd[q]);
    assert forall q :: q in x.wr ==> AccOK(s, q, x.wr[q]);
  }

  lemma ValidatedStamp(s: State, t: nat, r: nat)
    requires |s.db| == |s.rows| && Enabled(s, Validate(t, r)) && TxnOK(s, t) && LocksOK(DoValidate(s, t, r), t)
    requires s.rows[r].lock == FREE && s.rows[r].tid == s.txns[t].rd[r].tid
    requires At(s.hist, s.db[r], r, s.txns[t].stamp) == s.txns[t].rd[r].data
    ensures StampOK(DoValidate(s, t, r), t)
  {
    var s', x := DoValidate(s, t, r), s.txns[t];
    assert forall q :: q in x.phase.valid ==> ValidOK(s, t, q);
    assert forall q :: q in x.phase.valid ==> ValidOK(s', t, q);
    assert forall q :: q in x.wr ==> AccessorsBefore(s, q, x.stamp);
    assert ValidOK(s', t, r);
  }

  /** A row whose id still stands has, at the stamp, the value that was read. */
  lemma ReadAtStamp(s: State, t: nat, r: nat)
    requires Inv(s) && t < |s.txns| && s.txns[t].phase.Validating? && r < |s.rows| && !Busy(s, r)
    requires r in s.txns[t].rd || r in s.txns[t].wr
    requires s.rows[r].tid == if r in s.txns[t].rd then s.txns[t].rd[r].tid else s.txns[t].wr[r].tid
    ensures At(s.hist, s.db[r], r, s.txns[t].stamp) == if r in s.txns[t].rd then s.txns[t].rd[r].data else s.txns[t].wr[r].data
  {
    assert TxnOK(s, t) && RowOK(s, r);
    var a := if r in s.txns[t].rd then s.txns[t].rd[r] else s.txns[t].wr[r];
    assert AccOK(s, r, a);
    AtFinal(s.hist, s.db[r], r, s.txns[t].stamp);
  }

  lemma LocksOf(s: State, t: nat)
    requires Inv(s) && t < |s.txns|
    ensures forall q :: 0 <= q < |s.rows| && s.rows[q].lock == t ==> q in s.txns[t].wr
  {
    forall q | 0 <= q < |s.rows| && s.rows[q].lock == t
      ensures q in s.txns[t].wr
    {
      assert LockHeld(s, q);
    }
  }

  lemma LocksCompleteTxn(s: State, t: nat)
    requires Inv(s) && Enabled(s, LocksComplete(t))
    ensures TxnOK(DoLocksComplete(s, t), t)
  {
    assert TxnOK(s, t);
    var s' := DoLocksComplete(s, t);
    forall r, a | 0 <= r < |s.rows| && AccOK(s, r, a) ensures AccOK(s', r, a) { }
    assert forall r :: r in s.txns[t].rd ==> AccOK(s, r, s.txns[t].rd[r]);
    assert forall r :: r in s.txns[t].wr ==> AccOK(s, r, s.txns[t].wr[r]) && Mine(s, t, r);
    assert forall r :: r in s.txns[t].wr ==> AccessorsBefore(s', r, s.clock);
  }

  lemma KeepLocksComplete(s: State, t: nat)
    requires Inv(s) && Enabled(s, LocksComplete(t))
    ensures Inv(DoLocksComplete(s, t))
  {
    assert TxnOK(s, t);
    LocksCompleteTxn(s, t);
    LocksOf(s, t);
    var y := s.txns[t].(stamp := s.clock, phase := Validating({}));
    assert DoLocksComplete(s, t) == SetTxn(s, t, y).(clock := s.clock + 1);
    LocalStep(s, t, y, s.clock + 1);
  }

  lemma LockedTxn(s: State, a: Action)
    requires |s.db| == |s.rows| && Enabled(s, a) && (a.TryLock? || a.Unlock?) && TxnOK(s, a.t) && LockHeld(s, a.r)
    ensures TxnOK(Apply(s, a), a.t)
  {
    var s', t := Apply(s, a), a.t;
    if Live(s.txns[t].phase) {
      LockedAccs(s, a);
      assert forall q :: q in s.txns[t].rd ==> AccOK(s, q, s.txns[t].rd[q]);
      assert forall q :: q in s.txns[t].wr ==> AccOK(s, q, s.txns[t].wr[q]);
    }
  }

  lemma LockedAccs(s: State, a: Action)
    requires |s.db| == |s.rows| && Enabled(s, a) && (a.TryLock? || a.Unlock?) && LockHeld(s, a.r)
    ensures forall q, c :: 0 <= q < |s.rows| && AccOK(s, q, c) ==> AccOK(Apply(s, a), q, c)
  {
    var s' := Apply(s, a);
    assert forall q :: 0 <= q < |s.rows| ==>
        Busy(s', q) == Busy(s, q) && s'.rows[q].tid == s.rows[q].tid && s'.rows[q].data == s.rows[q].data;
  }

  lemma KeepLocks(s: State, a: Action)
    requires Inv(s) && Enabled(s, a) && (a.TryLock? || a.Unlock?)
    ensures Inv(Apply(s, a))
  {
    var s', t, r := Apply(s, a), a.t, a.r;
    assert TxnOK(s, t) && RowOK(s, r) && LockHeld(s, r);
    assert s' == SetTxn(SetRow(s, r, s'.rows[r]), t, s'.txns[t]);
    LockedTxn(s, a);
    RowStep(s, t, s'.txns[t], r, s'.rows[r]);
  }

  lemma KeepReleased(s: State, a: Action)
    requires Inv(s) && Enabled(s, a) && a.Release?
    ensures Inv(Apply(s, a))
  {
    var s', t, r := Apply(s, a), a.t, a.r;
    assert TxnOK(s, t) && RowOK(s, r) && LockHeld(s, r);
    assert s' == SetTxn(SetRow(s, r, s'.rows[r]), t, s'.txns[t]);
    assert !Busy(s, r) && !Busy(s', r);
    RowStep(s, t, s'.txns[t], r, s'.rows[r]);
  }

  lemma KeepWritten(s: State, a: Action)
    requires Inv(s) && Enabled(s, a) && (a.WriteData? || a.WriteWord?)
    ensures Inv(Apply(s, a))
  {
    var s', t, r := Apply(s, a), a.t, a.r;
    assert TxnOK(s, t) && RowOK(s, r) && LockHeld(s, r);
    assert r in s.txns[t].wr && s.rows[r].lock == t && s.rows[r].tid < s.txns[t].cur;
    assert Busy(s, r) && Busy(s', r) == a.WriteData?;
    RowStep(s, t, s'.txns[t], r, s'.rows[r]);
  }

  lemma KeepInstall(s: State, a: Action)
    requires Inv(s) && Enabled(s, a) && (a.WriteData? || a.WriteWord? || a.Release?)
    ensures Inv(Apply(s, a))
  {
    if a.Release? { KeepReleased(s, a); } else { KeepWritten(s, a); }
  }

  // ----- the commit

  lemma CommitReads(s: State, t: nat, m: nat)
    requires Inv(s) && Enabled(s, Commit(t, m))
    ensures NoLaterAccess(s.hist, RecordOf(t, s.txns[t]))
    ensures var c := RecordOf(t, s.txns[t]);
            && (forall r :: r in c.readSet ==> r < |s.db| && c.readSet[r] == At(s.hist, s.db[r], r, c.ts))
            && (forall r :: r in c.writeSet ==> r < |s.db|)
  {
    var x, c := s.txns[t], RecordOf(t, s.txns[t]);
    assert TxnOK(s, t);
    forall i, r | 0 <= i < |s.hist| && r in c.writeSet && Accesses(s.hist[i], r)
      ensures s.hist[i].ts <= c.ts
    {
      assert AccessorsBefore(s, r, x.stamp);
    }
    forall r | r in c.readSet
      ensures r < |s.db| && c.readSet[r] == At(s.hist, s.db[r], r, c.ts)
    {
      if r in x.rd {
        assert ValidOK(s, t, r);
      } else {
        assert Mine(s, t, r);
        ReadAtStamp(s, t, r);
      }
    }
  }

  lemma CommitAt(s: State, t: nat, m: nat, r: nat, u: nat)
    requires Inv(s) && Enabled(s, Commit(t, m)) && r < |s.db|
    ensures r !in s.txns[t].wr || u < s.txns[t].stamp ==>
      At(DoCommit(s, t, m).hist, s.db[r], r, u) == At(s.hist, s.db[r], r, u)
    ensures r in s.txns[t].wr && s.txns[t].stamp <= u ==>
      At(DoCommit(s, t, m).hist, s.db[r], r, u) == s.txns[t].wr[r].val
  {
    CommitReads(s, t, m);
    InsertAt(s.hist, RecordOf(t, s.txns[t]), s.db[r], r, u);
  }

  lemma CommitStamps(s: State, t: nat, m: nat)
    requires Inv(s) && Enabled(s, Commit(t, m))
    ensures Sorted(DoCommit(s, t, m).hist)
    ensures forall i :: 0 <= i < |DoCommit(s, t, m).hist| ==> DoCommit(s, t, m).hist[i].ts < s.clock
  {
    var s', c := DoCommit(s, t, m), RecordOf(t, s.txns[t]);
    assert TxnOK(s, t);
    InsertSorted(s.hist, c);
    forall i | 0 <= i < |s'.hist| ensures s'.hist[i].ts < s.clock { InsertIndex(s.hist, c, i); }
  }

  lemma CommitLatest(s: State, t: nat, m: nat, r: nat)
    requires Inv(s) && Enabled(s, Commit(t, m)) && r < |s.db|
    ensures Latest(DoCommit(s, t, m), r) == if r in s.txns[t].wr then s.txns[t].wr[r].val else Latest(s, r)
  {
    assert TxnOK(s, t);
    CommitAt(s, t, m, r, s.clock);
    CommitStamps(s, t, m);
    AtFinal(s.hist, s.db[r], r, s.clock);
    AtFinal(DoCommit(s, t, m).hist, s.db[r], r, s.clock);
  }

  lemma CommitRow(s: State, t: nat, m: nat, r: nat)
    requires Inv(s) && Enabled(s, Commit(t, m)) && r < |s.rows|
    ensures RowOK(DoCommit(s, t, m), r) && LockHeld(DoCommit(s, t, m), r)
  {
    var s', x := DoCommit(s, t, m), s.txns[t];
    assert TxnOK(s, t) && RowOK(s, r) && LockHeld(s, r);
    CommitLatest(s, t, m, r);
    assert r in x.wr ==> Mine(s, t, r);
    assert Busy(s', r) == (Busy(s, r) || r in x.wr);
  }

  lemma CommitAcc(s: State, t: nat, m: nat, r: nat, a: Acc)
    requires Inv(s) && Enabled(s, Commit(t, m)) && r < |s.rows| && AccOK(s, r, a)
    ensures AccOK(DoCommit(s, t, m), r, a)
  {
    var s', c := DoCommit(s, t, m), RecordOf(t, s.txns[t]);
    assert TxnOK(s, t);
    assert r in s.txns[t].wr ==> Mine(s, t, r);
    if a.tid == s.rows[r].tid && !Busy(s', r) {
      forall i | 0 <= i < |s'.hist| && r in s'.hist[i].writeSet
        ensures s'.hist[i].ts < a.when
      {
        InsertIndex(s.hist, c, i);
      }
    }
  }

  lemma CommitValid(s: State, t: nat, m: nat, u: nat, r: nat)
    requires Inv(s) && Enabled(s, Commit(t, m)) && u < |s.txns| && u != t && s.txns[u].phase.Validating?
    requires r in s.txns[u].phase.valid
    ensures r < |s.rows| && r in s.txns[u].rd && ValidOK(DoCommit(s, t, m), u, r)
  {
    assert TxnOK(s, u) && TxnOK(s, t);
    assert ValidOK(s, u, r);
    assert r in s.txns[t].wr ==> Mine(s, t, r);
    CommitAt(s, t, m, r, s.txns[u].stamp);
  }

  /** The committed transaction comes before every stamped holder of a lock on a row it touched. */
  lemma CommitEarlier(s: State, t: nat, m: nat, u: nat, r: nat)
    requires Inv(s) && Enabled(s, Commit(t, m)) && u < |s.txns| && u != t && s.txns[u].phase.Validating?
    requires r in s.txns[u].wr
    ensures Accesses(RecordOf(t, s.txns[t]), r) ==> s.txns[t].stamp < s.txns[u].stamp
    ensures AccessorsBefore(s, r, s.txns[u].stamp)
  {
    var x, y := s.txns[t], s.txns[u];
    assert TxnOK(s, u) && TxnOK(s, t);
    assert Mine(s, u, r) && AccessorsBefore(s, r, y.stamp);
    assert r in x.wr ==> Mine(s, t, r);
    assert r in x.rd ==> ValidOK(s, t, r);
  }

  lemma InsertBefore(h: seq<Committed>, c: Committed, r: nat, cap: nat)
    requires forall i :: 0 <= i < |h| && Accesses(h[i], r) ==> h[i].ts < cap
    requires Accesses(c, r) ==> c.ts < cap
    ensures forall i :: 0 <= i < |Insert(h, c)| && Accesses(Insert(h, c)[i], r) ==> Insert(h, c)[i].ts < cap
  {
    forall i | 0 <= i < |Insert(h, c)| && Accesses(Insert(h, c)[i], r)
      ensures Insert(h, c)[i].ts < cap
    {
      InsertIndex(h, c, i);
    }
  }

  lemma CommitBefore(s: State, t: nat, m: nat, u: nat, r: nat)
    requires Inv(s) && Enabled(s, Commit(t, m)) && u < |s.txns| && u != t && s.txns[u].phase.Validating?
    requires r in s.txns[u].wr
    ensures AccessorsBefore(DoCommit(s, t, m), r, s.txns[u].stamp)
  {
    CommitEarlier(s, t, m, u, r);
    InsertBefore(s.hist, RecordOf(t, s.txns[t]), r, s.txns[u].stamp);
  }

  lemma CommitOwn(s: State, t: nat, m: nat)
    requires Inv(s) && Enabled(s, Commit(t, m))
    ensures TxnOK(DoCommit(s, t, m), t)
  {
    assert TxnOK(s, t);
    assert forall r :: r in s.txns[t].wr ==> Mine(s, t, r);
  }

  lemma CommitAccs(s: State, t: nat, m: nat, u: nat)
    requires Inv(s) && Enabled(s, Commit(t, m)) && u < |s.txns| && u != t
    ensures LocksOK(DoCommit(s, t, m), u) && AccsOK(DoCommit(s, t, m), u)
  {
    var s', y := DoCommit(s, t, m), s.txns[u];
    assert TxnOK(s, u);
    assert forall r :: Mine(s', u, r) == Mine(s, u, r);
    forall r, a | 0 <= r < |s.rows| && AccOK(s, r, a) ensures AccOK(s', r, a) { CommitAcc(s, t, m, r, a); }
    if Live(y.phase) {
      assert forall r :: r in y.rd ==> AccOK(s, r, y.rd[r]);
      assert forall r :: r in y.wr ==> AccOK(s, r, y.wr[r]);
    }
    if y.phase.Copied? {
      assert Busy(s, y.phase.row) ==> Busy(s', y.phase.row);
    }
  }

  lemma CommitTxn(s: State, t: nat, m: nat, u: nat)
    requires Inv(s) && Enabled(s, Commit(t, m)) && u < |s.txns|
    ensures TxnOK(DoCommit(s, t, m), u)
  {
    var s', y := DoCommit(s, t, m), s.txns[u];
    if u == t {
      CommitOwn(s, t, m);
    } else {
      CommitAccs(s, t, m, u);
      if y.phase.Validating? {
        forall r | r in y.phase.valid ensures r < |s.rows| && r in y.rd && ValidOK(s', u, r) { CommitValid(s, t, m, u, r); }
        forall r | r in y.wr ensures AccessorsBefore(s', r, y.stamp) { CommitBefore(s, t, m, u, r); }
      }
    }
  }

  lemma CommitHistory(s: State, t: nat, m: nat)
    requires HistoryOK(s) && Enabled(s, Commit(t, m))
    ensures HistoryOK(DoCommit(s, t, m))
  {
    var s', c := DoCommit(s, t, m), RecordOf(t, s.txns[t]);
    forall i | 0 <= i < |s.hist| ensures s.hist[i].id != c.id { assert s.hist[i] in s.hist; }
    InsertMembers(s.hist, c);
    assert RecordOf(t, s'.txns[t]) == c;
  }

  lemma KeepCommit(s: State, t: nat, m: nat)
    requires Inv(s) && Enabled(s, Commit(t, m))
    ensures Inv(DoCommit(s, t, m))
  {
    var s', c := DoCommit(s, t, m), RecordOf(t, s.txns[t]);
    CommitReads(s, t, m);
    CommitStamps(s, t, m);
    InsertConsistent(s.db, s.hist, c);
    CommitHistory(s, t, m);
    forall r | 0 <= r < |s'.rows| ensures LockHeld(s', r) && RowOK(s', r) { CommitRow(s, t, m, r); }
    forall u | 0 <= u < |s'.txns| ensures TxnOK(s', u) { CommitTxn(s, t, m, u); }
  }

  lemma KeepInv(s: State, a: Action)
    requires Inv(s) && Enabled(s, a)
    ensures Inv(Apply(s, a))
  {
    match a
    case LocksComplete(t) => KeepLocksComplete(s, t);
    case Commit(t, m) => KeepCommit(s, t, m);
    case TryLock(_, _) => KeepLocks(s, a);
    case Unlock(_, _) => KeepLocks(s, a);
    case WriteData(_, _) => KeepInstall(s, a);
    case WriteWord(_, _) => KeepInstall(s, a);
    case Release(_, _) => KeepInstall(s, a);
    case Check(_, _) => KeepLocal(s, a);
    case Validate(t, r) => KeepValidate(s, t, r);
    case Abort(_) => KeepLocal(s, a);
    case _ => KeepExecution(s, a);
  }

  // ----- whole runs

  lemma {:induction false} RunInv(s: State, schedule: seq<Action>)
    requires Init(s) && Run(s, schedule).Some?
    ensures Inv(Run(s, schedule).value) && Run(s, schedule).value.db == s.db
  {
    if schedule == [] {
      InitInv(s);
    } else {
      RunInv(s, schedule[..|schedule| - 1]);
      KeepInv(Run(s, schedule[..|schedule| - 1]).value, schedule[|schedule| - 1]);
    }
  }

  /**
   * The outcome of a run: executing the committed transactions serially, in the order in which
   * their write locks became complete, reads what they read and, once every lock is released,
   * leaves the table the rows hold.
   */
  ghost predicate Serializable(db: seq<Value>, s: State) {
    && |db| == |s.rows|
    && Sorted(s.hist) && HistoryOK(s)
    && Replay(db, s.hist).Some?
    && ((forall r :: 0 <= r < |s.rows| ==> s.rows[r].lock == FREE) ==>
          |Replay(db, s.hist).value| == |s.rows| &&
          forall r :: 0 <= r < |s.rows| ==> s.rows[r].data == Replay(db, s.hist).value[r])
  }

  lemma InvSerializable(s: State)
    requires Inv(s)
    ensures Serializable(s.db, s)
  {
    ConsistentIffReplay(s.db, s.hist);
    if forall r :: 0 <= r < |s.rows| ==> s.rows[r].lock == FREE {
      forall r | 0 <= r < |s.rows|
        ensures s.rows[r].data == Replay(s.db, s.hist).value[r]
      {
        assert RowOK(s, r) && !Busy(s, r);
      }
    }
  }

  /** Every interleaving of Silo is serializable. */
  lemma SiloSerializable(s: State, schedule: seq<Action>)
    requires Init(s) && Run(s, schedule).Some?
    ensures Serializable(s.db, Run(s, schedule).value)
  {
    RunInv(s, schedule);
    InvSerializable(Run(s, schedule).value);
  }

  /** The assertion in write(): the installed id is above the row's, and the row is locked by the installer. */
  lemma InstallAssertion(s: State, schedule: seq<Action>, t: nat, r: nat)
    requires Init(s) && Run(s, schedule).Some? && Enabled(Run(s, schedule).value, WriteWord(t, r))
    ensures var f := Run(s, schedule).value; f.rows[r].tid < f.txns[t].cur && f.rows[r].lock == t
  {
    RunInv(s, schedule);
    assert TxnOK(Run(s, schedule).value, t);
  }

  /** A row's id never decreases, and every installed version raises it. */
  lemma TidsIncrease(s: State, schedule: seq<Action>, a: Action, r: nat)
    requires Init(s) && Run(s, schedule).Some? && Enabled(Run(s, schedule).value, a) && r < |s.rows|
    ensures |Run(s, schedule).value.rows| == |s.rows|
    ensures var f := Run(s, schedule).value;
            var g := Apply(f, a);
            if a.WriteWord? && a.r == r then f.rows[r].tid < g.rows[r].tid else g.rows[r].tid == f.rows[r].tid
  {
    RunInv(s, schedule);
    RunRows(s, schedule);
    if a.WriteWord? {
      InstallAssertion(s, schedule, a.t, a.r);
    }
  }

  lemma {:induction false} RunRows(s: State, schedule: seq<Action>)
    requires Run(s, schedule).Some?
    ensures |Run(s, schedule).value.rows| == |s.rows|
  {
    if schedule != [] {
      RunRows(s, schedule[..|schedule| - 1]);
      StepRows(Run(s, schedule[..|schedule| - 1]).value, schedule[|schedule| - 1]);
    }
  }

  lemma StepRows(s: State, a: Action)
    requires Enabled(s, a)
    ensures |Apply(s, a).rows| == |s.rows|
  {
  }
}
