/**
 * A run of per-row OCC with the two timestamp counters of the code
 * (untrusted/system/thread.cpp:128, trusted/concurrency_control/occ.cpp:73) that loses an update.
 */
module OccLostUpdate {
  import opened Wrappers
  import opened Serial
  import opened Occ
  import opened OccProof

  /** A property that every action of the code as written, with its two counters, preserves. */
  ghost predicate Closed(reached: State -> bool) {
    forall m: State, a: Action {:trigger Apply(m, a)} :: reached(m) && Enabled(m, a) ==> reached(Apply(m, a))
  }

  const START := State([0], [Row(FREE, 0, 0, 0)], [FRESH, FRESH], [], 1, 1, false)

  /** Both transactions have started, at 1 and 2, and read the row. */
  const BOTH_READ := State([0], [Row(FREE, 0, 0, 0)],
    [Txn(1, 0, map[], map[0 := Acc(0, 10, 0)], Running), Txn(2, 0, map[], map[0 := Acc(0, 20, 0)], Running)], [], 3, 1, false)

  lemma RunReads(reached: State -> bool)
    requires Closed(reached) && reached(START)
    ensures reached(BOTH_READ)
  {
    assert reached(Apply(START, Begin(0)));
    var s1 := DoBegin(START, 0);
    assert reached(Apply(s1, Begin(1)));
    var s2 := DoBegin(s1, 1);
    assert s2.txns == [Txn(1, 0, map[], map[], Running), Txn(2, 0, map[], map[], Running)];
    assert reached(Apply(s2, Access(0, 0, true, 10)));
    var s3 := DoAccess(s2, 0, 0, true, 10);
    assert reached(Apply(s3, Access(1, 0, true, 20)));
    assert DoAccess(s3, 1, 0, true, 20) == BOTH_READ;
  }

  /** A transaction that has read only row 0 latches it and takes its end timestamp. */
  lemma RunToEnd(reached: State -> bool, s: State, t: nat) returns (s': State)
    requires Closed(reached) && reached(s) && t < |s.txns| && |s.rows| > 0 && !s.single
    requires s.txns[t].phase.Running? && s.txns[t].rd == map[] && s.txns[t].wr.Keys == {0}
    requires s.rows[0].latch == FREE && s.rows[0].wts <= s.txns[t].start
    ensures reached(s')
    ensures var y := s.txns[t].(end := s.inside, phase := Writing({}));
            s' == SetTxn(SetRow(s, 0, s.rows[0].(latch := t)), t, y).(hist := Insert(s.hist, RecordOf(t, y)), inside := s.inside + 1)
  {
    assert reached(Apply(s, BeginLatching(t)));
    var s1 := Apply(s, BeginLatching(t));
    assert reached(Apply(s1, Latch(t, 0)));
    var s2 := DoLatch(s1, t, 0);
    assert {} + {0} == {0};
    assert s2.txns[t].phase.held == s2.txns[t].rd.Keys + s2.txns[t].wr.Keys;
    assert reached(Apply(s2, TakeEnd(t)));
    s' := DoTakeEnd(s2, t);
  }

  const FIRST := Committed(0, 1, map[0 := 0], map[0 := 10])
  const SECOND := Committed(1, 2, map[0 := 0], map[0 := 20])

  /** The first one has committed at end timestamp 1 and released the row. */
  const FIRST_DONE := State([0], [Row(FREE, 1, 10, 1)],
    [Txn(1, 1, map[], map[0 := Acc(0, 10, 0)], Writing({0})), BOTH_READ.txns[1]], [FIRST], 3, 2, false)

  lemma RunFirst(reached: State -> bool)
    requires Closed(reached) && reached(START)
    ensures reached(FIRST_DONE)
  {
    RunReads(reached);
    var s1 := RunToEnd(reached, BOTH_READ, 0);
    assert RecordOf(0, s1.txns[0]) == FIRST;
    assert Insert([], FIRST) == [FIRST];
    assert reached(Apply(s1, Write(0, 0)));
    var s2 := DoWrite(s1, 0, 0);
    assert {} + {0} == {0};
    assert reached(Apply(s2, Release(0, 0)));
    assert Apply(s2, Release(0, 0)) == FIRST_DONE;
  }

  lemma RunSecond(reached: State -> bool) returns (s: State)
    requires Closed(reached) && reached(START)
    ensures reached(s) && s.hist == [FIRST, SECOND]
  {
    RunFirst(reached);
    s := RunToEnd(reached, FIRST_DONE, 1);
    assert RecordOf(1, s.txns[1]) == SECOND;
    EndAppends([FIRST], SECOND);
  }

  ghost predicate Reached(m: State) {
    exists schedule :: Run(START, schedule) == Some(m)
  }

  lemma ReachedClosed()
    ensures Closed((m: State) => Reached(m)) && Reached(START)
  {
    forall m: State, a: Action | Reached(m) && Enabled(m, a)
      ensures Reached(Apply(m, a))
    {
      var p :| Run(START, p) == Some(m);
      assert (p + [a])[..|p + [a]| - 1] == p;
      assert Run(START, p + [a]) == Some(Apply(m, a));
    }
    assert Run(START, []) == Some(START);
  }

  lemma NoSerialOrder()
    ensures Replay([0], [FIRST, SECOND]) == None && Replay([0], [SECOND, FIRST]) == None
  {
    assert [FIRST, SECOND][..1] == [FIRST] && [SECOND, FIRST][..1] == [SECOND];
    assert [FIRST][..0] == [] && [SECOND][..0] == [];
    assert Replay([0], []) == Some([0]);
    assert Overwrite([0], FIRST.writeSet)[0] == 10 && Overwrite([0], SECOND.writeSet)[0] == 20;
  }

  /**
   * With start_ts from one manager and end_ts from the other, both starting at 1, a run commits
   * two increments of the same row that both read its initial value: an update is lost, in
   * either serial order.
   */
  lemma LostUpdate()
    ensures Init(START)
    ensures exists schedule :: Run(START, schedule).Some? && Run(START, schedule).value.hist == [FIRST, SECOND]
    ensures Replay(START.db, [FIRST, SECOND]) == None && Replay(START.db, [SECOND, FIRST]) == None
  {
    ReachedClosed();
    var s := RunSecond((m: State) => Reached(m));
    var schedule :| Run(START, schedule) == Some(s);
    NoSerialOrder();
  }
}
