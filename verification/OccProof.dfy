/**
 * Per-row OCC is serializable in end_ts order in every run whose end timestamps are in order with
 * the start timestamps of the transactions they overtake. With a single counter that is every run;
 * with the two counters of the code it is a condition, and an exact one.
 */
module OccProof {
  import opened Serial
  import opened Occ
  import opened OccLatches

  /** Committed by the latch holder, not yet written. */
  predicate Pending(s: State, r: nat)
    requires r < |s.rows|
  {
    var o := s.rows[r].latch;
    0 <= o < |s.txns| && s.txns[o].phase.Writing? && r in s.txns[o].wr && r !in s.txns[o].phase.written
  }

  /** Whoever still works on the row started before the writer took its end timestamp. */
  ghost predicate StartsBefore(s: State, t: nat, r: nat)
    requires t < |s.txns|
  {
    forall u :: 0 <= u < |s.txns| && (s.txns[u].phase.Running? || s.txns[u].phase.Latching?) && Accessed(s.txns[u], r) ==>
        s.txns[u].start < s.txns[t].end
  }

  ghost predicate RowOK(s: State, r: nat)
    requires r < |s.db| == |s.rows|
  {
    && s.rows[r].wts < EndClock(s)
    && ValueOf(s.hist, s.db[r], r) == (if Pending(s, r) then s.txns[s.rows[r].latch].wr[r].val else s.rows[r].data)
    && (Pending(s, r) ==> StartsBefore(s, s.rows[r].latch, r))
  }

  /** The timestamp test is exact: it fails just when the row was updated since the access. */
  predicate AccOK(s: State, start: nat, r: nat, a: Acc)
    requires r < |s.rows|
  {
    && a.version <= s.rows[r].version
    && (a.version == s.rows[r].version <==> s.rows[r].wts <= start)
    && (a.version == s.rows[r].version ==> a.data == s.rows[r].data)
  }

  ghost predicate TxnOK(s: State, t: nat)
    requires t < |s.txns|
  {
    var x := s.txns[t];
    && (forall r :: r in x.rd ==> r < |s.rows| && r !in x.wr)
    && (forall r :: r in x.wr ==> r < |s.rows|)
    && (x.phase.Running? || x.phase.Latching? ==>
          && x.start < s.outside
          && (forall r :: r in x.rd ==> AccOK(s, x.start, r, x.rd[r]))
          && (forall r :: r in x.wr ==> AccOK(s, x.start, r, x.wr[r])))
    && (x.phase.Idle? ==> x == FRESH)
    && (x.phase.Latching? ==>
          && (forall r :: r in x.phase.held ==> Accessed(x, r) && r < |s.rows| && s.rows[r].latch == t && s.rows[r].wts <= x.start)
          && (forall p: nat, q: nat :: p in x.phase.held && Accessed(x, q) && q < p ==> q in x.phase.held))
    && (x.phase.Writing? ==>
          && x.end < EndClock(s)
          && (forall r :: r in x.phase.written ==> r in x.wr)
          && (forall r :: r in x.wr && r !in x.phase.written ==> s.rows[r].latch == t && s.rows[r].wts < x.end))
  }

  ghost predicate HistoryOK(s: State) {
    && DistinctIds(s.hist)
    && (forall c :: c in s.hist ==> c.id < |s.txns| && s.txns[c.id].phase.Writing? && c == RecordOf(c.id, s.txns[c.id]))
    && (forall t :: 0 <= t < |s.txns| && s.txns[t].phase.Writing? ==> RecordOf(t, s.txns[t]) in s.hist)
  }

  ghost predicate Inv(s: State) {
    && |s.db| == |s.rows|
    && Sorted(s.hist) && Consistent(s.db, s.hist) && HistoryOK(s)
    && (forall i :: 0 <= i < |s.hist| ==> s.hist[i].ts < EndClock(s))
    && (forall r :: 0 <= r < |s.rows| ==> LatchHeld(s, r) && RowOK(s, r))
    && (forall t :: 0 <= t < |s.txns| ==> TxnOK(s, t))
  }

  lemma InitInv(s: State)
    requires Init(s)
    ensures Inv(s)
  {
  }

  /** What an action does to a row as the other transactions see it. */
  ghost predicate Updates(s: State, s': State, r: nat)
    requires r < |s.rows| == |s'.rows|
  {
    || (s'.rows[r].wts == s.rows[r].wts && s'.rows[r].data == s.rows[r].data && s'.rows[r].version == s.rows[r].version)
    || (&& s'.rows[r].version > s.rows[r].version
        && forall t :: 0 <= t < |s.txns| && (s.txns[t].phase.Running? || s.txns[t].phase.Latching?) && Accessed(s.txns[t], r) ==>
             s.txns[t].start < s'.rows[r].wts)
  }

  lemma Undisturbed(s: State, s': State, u: nat)
    requires u < |s.txns| == |s'.txns| && |s.rows| == |s'.rows| && s.outside <= s'.outside && EndClock(s) <= EndClock(s')
    requires s'.txns[u] == s.txns[u] && TxnOK(s, u)
    requires forall r :: 0 <= r < |s.rows| ==> Updates(s, s', r)
    requires forall r :: 0 <= r < |s.rows| && s.rows[r].latch == u ==> s'.rows[r] == s.rows[r]
    ensures TxnOK(s', u)
  {
    var x := s.txns[u];
    if x.phase.Running? || x.phase.Latching? {
      forall r | r in x.rd ensures AccOK(s', x.start, r, x.rd[r]) { assert Updates(s, s', r) && AccOK(s, x.start, r, x.rd[r]); }
      forall r | r in x.wr ensures AccOK(s', x.start, r, x.wr[r]) { assert Updates(s, s', r) && AccOK(s, x.start, r, x.wr[r]); }
    }
  }

  /** Only `t` moves, and it neither is nor becomes committed. */
  lemma LocalStep(s: State, t: nat, y: Txn, outside: nat)
    requires Inv(s) && t < |s.txns| && s.outside <= outside
    requires !s.txns[t].phase.Writing? && !y.phase.Writing?
    requires TxnOK(SetTxn(s, t, y).(outside := outside), t)
    requires y.start == s.txns[t].start || s.txns[t].phase.Idle?
    requires !y.phase.Idle? && (s.txns[t].phase.Aborting? ==> y.phase.Aborting?)
    requires forall r :: 0 <= r < |s.rows| && Accessed(y, r) && !Accessed(s.txns[t], r) ==> s.rows[r].latch == FREE
    requires forall r :: 0 <= r < |s.rows| && s.rows[r].latch == t ==>
      Accessed(y, r) && (y.phase.Aborting? || (y.phase.Latching? && r in y.phase.held))
    ensures Inv(SetTxn(s, t, y).(outside := outside))
  {
    var s' := SetTxn(s, t, y).(outside := outside);
    assert TxnOK(s, t);
    forall r | 0 <= r < |s'.rows| ensures LatchHeld(s', r) && RowOK(s', r) {
      assert LatchHeld(s, r) && RowOK(s, r);
      assert Pending(s', r) == Pending(s, r);
      if Pending(s, r) && Accessed(y, r) {
        assert Accessed(s.txns[t], r);
      }
    }
    forall u | 0 <= u < |s'.txns|
      ensures TxnOK(s', u)
    {
      assert TxnOK(s, u);
      if u != t {
        assert forall r :: 0 <= r < |s.rows| ==> Updates(s, s', r);
        Undisturbed(s, s', u);
      }
    }
    assert HistoryOK(s');
  }

  lemma KeepLocal(s: State, a: Action)
    requires Inv(s) && Enabled(s, a) && (a.Begin? || a.BeginLatching? || a.Abort?)
    ensures Inv(Apply(s, a))
  {
    assert TxnOK(s, a.t);
    var s' := Apply(s, a);
    forall q | 0 <= q < |s.rows| ensures s.rows[q].latch != a.t { assert LatchHeld(s, q); }
    LocalStep(s, a.t, s'.txns[a.t], s'.outside);
  }

  lemma KeepModify(s: State, t: nat, r: nat, val: Value)
    requires Inv(s) && Enabled(s, Modify(t, r, val))
    ensures Inv(Apply(s, Modify(t, r, val)))
  {
    assert TxnOK(s, t);
    var x := s.txns[t];
    var y := x.(wr := x.wr[r := x.wr[r].(val := val)]);
    assert forall q :: q in x.wr ==> q in y.wr && y.wr[q].(val := 0) == x.wr[q].(val := 0);
    forall q | 0 <= q < |s.rows| ensures s.rows[q].latch != t { assert LatchHeld(s, q); }
    LocalStep(s, t, y, s.outside);
  }

  lemma KeepAccess(s: State, t: nat, r: nat, w: bool, val: Value)
    requires Inv(s) && Enabled(s, Access(t, r, w, val))
    ensures Inv(DoAccess(s, t, r, w, val))
  {
    assert TxnOK(s, t);
    var y := DoAccess(s, t, r, w, val).txns[t];
    assert forall q :: Accessed(y, q) && !Accessed(s.txns[t], q) ==> q == r;
    forall q | 0 <= q < |s.rows| ensures s.rows[q].latch != t { assert LatchHeld(s, q); }
    LocalStep(s, t, y, s.outside);
  }

  /** `t` changes one row that was free or its own. */
  lemma RowStep(s: State, t: nat, y: Txn, r: nat, row: Row)
    requires Inv(s) && t < |s.txns| && r < |s.rows|
    requires y.rd == s.txns[t].rd && y.wr == s.txns[t].wr && y.end == s.txns[t].end
    requires y.phase.Writing? == s.txns[t].phase.Writing? && y.start == s.txns[t].start
    requires y.phase.Writing? ==> forall q :: q != r ==> (q in y.phase.written <==> q in s.txns[t].phase.written)
    requires y.phase.Latching? ==> s.txns[t].phase.Latching? && s.txns[t].phase.held <= y.phase.held
    requires y.phase.Latching? || y.phase.Aborting? || y.phase.Writing?
    requires s.rows[r].latch == FREE || s.rows[r].latch == t
    requires row.latch == FREE || row.latch == t
    requires var s' := SetTxn(SetRow(s, r, row), t, y);
      LatchHeld(s', r) && RowOK(s', r) && TxnOK(s', t) && Updates(s, s', r)
    ensures Inv(SetTxn(SetRow(s, r, row), t, y))
  {
    var s' := SetTxn(SetRow(s, r, row), t, y);
    forall q | 0 <= q < |s'.rows|
      ensures LatchHeld(s', q) && RowOK(s', q) && Updates(s, s', q)
    {
      assert LatchHeld(s, q) && RowOK(s, q);
      if q != r {
        assert s'.rows[q] == s.rows[q] && Pending(s', q) == Pending(s, q);
      }
    }
    forall u | 0 <= u < |s'.txns|
      ensures TxnOK(s', u)
    {
      assert TxnOK(s, u);
      if u != t {
        Undisturbed(s, s', u);
      }
    }
    assert forall u :: 0 <= u < |s.txns| ==> RecordOf(u, s'.txns[u]) == RecordOf(u, s.txns[u]);
  }

  lemma KeepLatch(s: State, t: nat, r: nat)
    requires Inv(s) && Enabled(s, Latch(t, r))
    ensures Inv(DoLatch(s, t, r))
  {
    var s', x := DoLatch(s, t, r), s.txns[t];
    assert TxnOK(s, t) && RowOK(s, r);
    assert forall q :: 0 <= q < |s.rows| ==> s'.rows[q].(latch := 0) == s.rows[q].(latch := 0);
    assert Accessed(x, r);
    if s'.txns[t].phase.Latching? {
      LatchedTxn(s, t, r);
    }
    RowStep(s, t, s'.txns[t], r, s'.rows[r]);
  }

  lemma LatchedTxn(s: State, t: nat, r: nat)
    requires Enabled(s, Latch(t, r)) && TxnOK(s, t) && s.rows[r].wts <= s.txns[t].start
    ensures TxnOK(DoLatch(s, t, r), t)
  {
    var s', x := DoLatch(s, t, r), s.txns[t];
    forall q | q in x.rd ensures AccOK(s', x.start, q, x.rd[q]) { assert AccOK(s, x.start, q, x.rd[q]); }
    forall q | q in x.wr ensures AccOK(s', x.start, q, x.wr[q]) { assert AccOK(s, x.start, q, x.wr[q]); }
  }

  lemma KeepWrite(s: State, t: nat, r: nat)
    requires Inv(s) && Enabled(s, Write(t, r))
    ensures Inv(DoWrite(s, t, r))
  {
    var s', x := DoWrite(s, t, r), s.txns[t];
    assert TxnOK(s, t) && RowOK(s, r) && LatchHeld(s, r);
    assert Pending(s, r) && !Pending(s', r);
    assert Updates(s, s', r);
    RowStep(s, t, s'.txns[t], r, s'.rows[r]);
  }

  // ----- taking the end timestamp

  predicate Active(s: State, u: nat) {
    u < |s.txns| && (s.txns[u].phase.Running? || s.txns[u].phase.Latching?)
  }

  /** Whoever is still at work on a row that `t` will write started below the end timestamp `t` is about to take. */
  ghost predicate EndInOrder(s: State, t: nat)
    requires t < |s.txns|
  {
    forall u: nat, r: nat :: Active(s, u) && u != t && r in s.txns[t].wr && Accessed(s.txns[u], r) ==> s.txns[u].start < EndClock(s)
  }

  /** With one counter it always is. */
  lemma SingleInOrder(s: State, t: nat)
    requires Inv(s) && s.single && t < |s.txns|
    ensures EndInOrder(s, t)
  {
    forall u: nat | Active(s, u)
      ensures s.txns[u].start < EndClock(s)
    {
      assert TxnOK(s, u);
    }
  }

  lemma EndReads(s: State, t: nat)
    requires Inv(s) && Enabled(s, TakeEnd(t))
    ensures var c := RecordOf(t, s.txns[t].(end := EndClock(s)));
            && NoLaterAccess(s.hist, c)
            && (forall r :: r in c.readSet ==> r < |s.db| && c.readSet[r] == At(s.hist, s.db[r], r, c.ts))
            && (forall r :: r in c.writeSet ==> r < |s.db|)
  {
    var x, c := s.txns[t], RecordOf(t, s.txns[t].(end := EndClock(s)));
    assert TxnOK(s, t);
    forall r | r in c.readSet
      ensures r < |s.db| && c.readSet[r] == At(s.hist, s.db[r], r, c.ts)
    {
      assert r in x.phase.held;
      assert RowOK(s, r) && !Pending(s, r);
      assert AccOK(s, x.start, r, if r in x.rd then x.rd[r] else x.wr[r]);
      AtFinal(s.hist, s.db[r], r, c.ts);
    }
  }

  lemma EndRow(s: State, t: nat, r: nat)
    requires Inv(s) && Enabled(s, TakeEnd(t)) && EndInOrder(s, t) && r < |s.rows|
    ensures LatchHeld(DoTakeEnd(s, t), r) && RowOK(DoTakeEnd(s, t), r)
  {
    var s', x := DoTakeEnd(s, t), s.txns[t];
    assert TxnOK(s, t) && RowOK(s, r) && LatchHeld(s, r);
    EndLatest(s, t, r);
    assert r in x.wr ==> r in x.phase.held;
    assert Pending(s', r) == (Pending(s, r) || r in x.wr);
    if Pending(s', r) {
      forall u | 0 <= u < |s.txns| && (s'.txns[u].phase.Running? || s'.txns[u].phase.Latching?) && Accessed(s'.txns[u], r)
        ensures s'.txns[u].start < s'.txns[s.rows[r].latch].end
      {
        assert TxnOK(s, u) && Active(s, u);
      }
    }
  }

  lemma EndLatest(s: State, t: nat, r: nat)
    requires Inv(s) && Enabled(s, TakeEnd(t)) && r < |s.db|
    ensures ValueOf(DoTakeEnd(s, t).hist, s.db[r], r) ==
      if r in s.txns[t].wr then s.txns[t].wr[r].val else ValueOf(s.hist, s.db[r], r)
  {
    var h, c := s.hist, RecordOf(t, s.txns[t].(end := EndClock(s)));
    EndAppends(h, c);
    assert (h + [c])[..|h|] == h;
    assert RecordOf(t, s.txns[t].(end := EndClock(s), phase := Writing({}))) == c;
  }

  /** The newest timestamp goes to the end of the order. */
  lemma EndAppends(h: seq<Committed>, c: Committed)
    requires Sorted(h) && forall i :: 0 <= i < |h| ==> h[i].ts <= c.ts
    ensures Insert(h, c) == h + [c]
  {
    UptoUnique(h, c.ts, |h|);
  }

  lemma EndTxn(s: State, t: nat, u: nat)
    requires Inv(s) && Enabled(s, TakeEnd(t)) && u < |s.txns|
    ensures TxnOK(DoTakeEnd(s, t), u)
  {
    var s', x := DoTakeEnd(s, t), s.txns[u];
    assert TxnOK(s, u);
    if u == t {
      forall r | r in x.wr ensures s.rows[r].latch == t && s.rows[r].wts < EndClock(s) { assert RowOK(s, r) && r in x.phase.held; }
    } else {
      assert forall r :: 0 <= r < |s.rows| ==> Updates(s, s', r);
      Undisturbed(s, s', u);
    }
  }

  lemma EndHistory(s: State, t: nat)
    requires HistoryOK(s) && Enabled(s, TakeEnd(t))
    ensures HistoryOK(DoTakeEnd(s, t))
  {
    var s', c := DoTakeEnd(s, t), RecordOf(t, s.txns[t].(end := EndClock(s)));
    assert RecordOf(t, s'.txns[t]) == c;
    forall i | 0 <= i < |s.hist| ensures s.hist[i].id != c.id { assert s.hist[i] in s.hist; }
    InsertMembers(s.hist, c);
  }

  lemma KeepTakeEnd(s: State, t: nat)
    requires Inv(s) && Enabled(s, TakeEnd(t)) && EndInOrder(s, t)
    ensures Inv(DoTakeEnd(s, t))
  {
    var s', c := DoTakeEnd(s, t), RecordOf(t, s.txns[t].(end := EndClock(s)));
    assert RecordOf(t, s'.txns[t]) == c;
    EndReads(s, t);
    EndAppends(s.hist, c);
    InsertSorted(s.hist, c);
    InsertConsistent(s.db, s.hist, c);
    EndHistory(s, t);
    forall r | 0 <= r < |s'.rows| ensures LatchHeld(s', r) && RowOK(s', r) { EndRow(s, t, r); }
    forall u | 0 <= u < |s'.txns| ensures TxnOK(s', u) { EndTxn(s, t, u); }
  }

  lemma KeepRelease(s: State, t: nat, r: nat)
    requires Inv(s) && Enabled(s, Release(t, r))
    ensures Inv(Apply(s, Release(t, r)))
  {
    var s', x := Apply(s, Release(t, r)), s.txns[t];
    assert TxnOK(s, t) && RowOK(s, r) && LatchHeld(s, r);
    assert s' == SetTxn(SetRow(s, r, s'.rows[r]), t, x);
    assert !Pending(s, r) && !Pending(s', r);
    RowStep(s, t, x, r, s'.rows[r]);
  }

  /** Every end timestamp is taken in order. */
  ghost predicate InOrder(s: State, a: Action) {
    a.TakeEnd? && a.t < |s.txns| ==> EndInOrder(s, a.t)
  }

  lemma KeepInv(s: State, a: Action)
    requires Inv(s) && Enabled(s, a) && InOrder(s, a)
    ensures Inv(Apply(s, a))
  {
    match a
    case Latch(t, r) => KeepLatch(s, t, r);
    case TakeEnd(t) => KeepTakeEnd(s, t);
    case Write(t, r) => KeepWrite(s, t, r);
    case Release(t, r) => KeepRelease(s, t, r);
    case Modify(t, r, val) => KeepModify(s, t, r, val);
    case Access(t, r, w, val) => KeepAccess(s, t, r, w, val);
    case _ => KeepLocal(s, a);
  }

  // ----- whole runs

  ghost predicate EndsInOrder(s: State, schedule: seq<Action>) {
    if schedule == [] then true
    else
      var before := schedule[..|schedule| - 1];
      EndsInOrder(s, before) && (Run(s, before).Some? ==> InOrder(Run(s, before).value, schedule[|schedule| - 1]))
  }

  lemma {:induction false} RunInv(s: State, schedule: seq<Action>)
    requires Init(s) && Run(s, schedule).Some? && EndsInOrder(s, schedule)
    ensures Inv(Run(s, schedule).value) && Run(s, schedule).value.db == s.db && Run(s, schedule).value.single == s.single
  {
    if schedule == [] {
      InitInv(s);
    } else {
      RunInv(s, schedule[..|schedule| - 1]);
      KeepInv(Run(s, schedule[..|schedule| - 1]).value, schedule[|schedule| - 1]);
    }
  }

  /** With one counter every run is in order. */
  lemma {:induction false} SingleEndsInOrder(s: State, schedule: seq<Action>)
    requires Init(s) && s.single
    ensures EndsInOrder(s, schedule)
  {
    if schedule != [] {
      var before, a := schedule[..|schedule| - 1], schedule[|schedule| - 1];
      SingleEndsInOrder(s, before);
      if Run(s, before).Some? {
        RunInv(s, before);
        if a.TakeEnd? && a.t < |Run(s, before).value.txns| {
          SingleInOrder(Run(s, before).value, a.t);
        }
      }
    }
  }

  /** Serial execution in end_ts order reads what was read and leaves the table the rows hold. */
  ghost predicate Serializable(db: seq<Value>, s: State) {
    && |db| == |s.rows|
    && Sorted(s.hist) && HistoryOK(s)
    && Replay(db, s.hist).Some?
    && ((forall r :: 0 <= r < |s.rows| ==> s.rows[r].latch == FREE) ==>
          |Replay(db, s.hist).value| == |s.rows| &&
          forall r :: 0 <= r < |s.rows| ==> s.rows[r].data == Replay(db, s.hist).value[r])
  }

  lemma InvSerializable(s: State)
    requires Inv(s)
    ensures Serializable(s.db, s)
  {
    ConsistentIffReplay(s.db, s.hist);
    if forall r :: 0 <= r < |s.rows| ==> s.rows[r].latch == FREE {
      forall r | 0 <= r < |s.rows|
        ensures s.rows[r].data == Replay(s.db, s.hist).value[r]
      {
        assert RowOK(s, r) && !Pending(s, r);
      }
    }
  }

  /** Every interleaving of OCC with one timestamp counter is serializable in end_ts order. */
  lemma OccSerializable(s: State, schedule: seq<Action>)
    requires Init(s) && s.single && Run(s, schedule).Some?
    ensures Serializable(s.db, Run(s, schedule).value)
  {
    SingleEndsInOrder(s, schedule);
    InOrderSerializable(s, schedule);
  }

  /** So is every run, with one counter or two, whose end timestamps are taken in order. */
  lemma InOrderSerializable(s: State, schedule: seq<Action>)
    requires Init(s) && Run(s, schedule).Some? && EndsInOrder(s, schedule)
    ensures Serializable(s.db, Run(s, schedule).value)
  {
    RunInv(s, schedule);
    InvSerializable(Run(s, schedule).value);
  }

  // ----- the order is exactly what validation needs

  /** What validate() tests and what it is to find out. */
  predicate Agrees(s: State, u: nat, r: nat)
    requires u < |s.txns| && r < |s.rows| && Accessed(s.txns[u], r)
  {
    var a := if r in s.txns[u].rd then s.txns[u].rd[r] else s.txns[u].wr[r];
    s.rows[r].wts <= s.txns[u].start <==> a.version == s.rows[r].version
  }

  /** validate() is exact: it lets a row through just when the row was not updated since its access. */
  lemma ValidationExact(s: State, schedule: seq<Action>, t: nat, r: nat)
    requires Init(s) && Run(s, schedule).Some? && EndsInOrder(s, schedule) && Enabled(Run(s, schedule).value, Latch(t, r))
    ensures var f := Run(s, schedule).value;
            var a := if r in f.txns[t].rd then f.txns[t].rd[r] else f.txns[t].wr[r];
            DoLatch(f, t, r).txns[t].phase.Latching? <==> a.version == f.rows[r].version
  {
    RunInv(s, schedule);
    var f := Run(s, schedule).value;
    assert TxnOK(f, t);
    assert AccOK(f, f.txns[t].start, r, if r in f.txns[t].rd then f.txns[t].rd[r] else f.txns[t].wr[r]);
  }

  /** The state after `t` takes its end timestamp and writes row `r`. */
  function EndAndWrite(s: State, t: nat, r: nat): State
    requires Enabled(s, TakeEnd(t)) && r in s.txns[t].wr && r < |s.rows|
  {
    DoWrite(DoTakeEnd(s, t), t, r)
  }

  /**
   * Once `t` has written a row, validation still tells another transaction at work on it the
   * truth exactly if that one started below the end timestamp of `t`.
   */
  lemma WriteExact(s: State, t: nat, r: nat, u: nat)
    requires Inv(s) && Enabled(s, TakeEnd(t)) && r in s.txns[t].wr && r < |s.rows|
    requires Active(s, u) && u != t && Accessed(s.txns[u], r)
    ensures Agrees(EndAndWrite(s, t, r), u, r) <==> s.txns[u].start < EndClock(s)
  {
    assert TxnOK(s, u);
    assert AccOK(s, s.txns[u].start, r, if r in s.txns[u].rd then s.txns[u].rd[r] else s.txns[u].wr[r]);
  }

  /** Validation stays exact for everybody at work on the rows that `t` will write. */
  ghost predicate StaysExact(s: State, t: nat)
    requires Enabled(s, TakeEnd(t))
  {
    forall u: nat, r: nat :: Active(s, u) && u != t && r in s.txns[t].wr && r < |s.rows| && Accessed(s.txns[u], r) ==>
        Agrees(EndAndWrite(s, t, r), u, r)
  }

  lemma ExactIffOrder(s: State, t: nat)
    requires Inv(s) && Enabled(s, TakeEnd(t))
    ensures EndInOrder(s, t) <==> StaysExact(s, t)
  {
    assert TxnOK(s, t);
    forall u: nat, r: nat | Active(s, u) && u != t && r in s.txns[t].wr && Accessed(s.txns[u], r)
      ensures r < |s.rows| && (Agrees(EndAndWrite(s, t, r), u, r) <==> s.txns[u].start < EndClock(s))
    {
      WriteExact(s, t, r, u);
    }
  }

  /** So an end timestamp is in order exactly if validation stays exact, and exactly if the invariant holds. */
  lemma OrderExact(s: State, t: nat)
    requires Inv(s) && Enabled(s, TakeEnd(t))
    ensures EndInOrder(s, t) <==> StaysExact(s, t)
    ensures EndInOrder(s, t) <==> Inv(DoTakeEnd(s, t))
  {
    ExactIffOrder(s, t);
    if EndInOrder(s, t) {
      KeepTakeEnd(s, t);
    } else {
      var u: nat, r: nat :| Active(s, u) && u != t && r in s.txns[t].wr && Accessed(s.txns[u], r) && !(s.txns[u].start < EndClock(s));
      OutOfOrder(s, t, u, r);
    }
  }

  lemma OutOfOrder(s: State, t: nat, u: nat, r: nat)
    requires Inv(s) && Enabled(s, TakeEnd(t)) && Active(s, u) && u != t && r in s.txns[t].wr && Accessed(s.txns[u], r)
    requires s.txns[u].start >= EndClock(s)
    ensures !Inv(DoTakeEnd(s, t))
  {
    var s' := DoTakeEnd(s, t);
    assert TxnOK(s, t) && r in s.txns[t].phase.held;
    assert Pending(s', r) && !StartsBefore(s', t, r) by { assert s'.txns[u] == s.txns[u]; }
    assert Inv(s') ==> RowOK(s', r);
  }
}
