/**
 * A run of try_renew() as it is written: the exit test after a failed compare-and-swap
 * compares the absolute timestamp with the lease length, so the retry puts a shorter lease
 * back, and two transactions commit that no serial order explains.
 */
module TicTocLostLease {
  import opened Wrappers
  import opened Serial
  import opened TicToc

  const IDLE := Txn(map[], map[], 0, Running)

  /** Three rows with leases 10..10, 0..12 and 0..10; transactions A = 0, B = 1, W = 2. */
  const START := State([0, 0, 0], [Row(FREE, Word(10, 0), 0), Row(FREE, Word(0, 12), 0), Row(FREE, Word(0, 10), 0)], [IDLE, IDLE, IDLE], [])

  /** A property of states that every action of the code as written preserves. */
  ghost predicate Closed(reached: State -> bool) {
    forall m: State, a: Action {:trigger Apply(m, a, false)} :: reached(m) && Enabled(m, a) ==> reached(Apply(m, a, false))
  }

  /** An undisturbed access copies the row and its lease. */
  lemma ReachedAccess(reached: State -> bool, s: State, t: nat, r: nat, w: bool, val: Value) returns (s': State)
    requires Closed(reached) && reached(s) && Enabled(s, Peek(t, r, w))
    ensures reached(s')
    ensures var a := Acc(s.rows[r].word.wts, s.rows[r].word.Rts(), s.rows[r].data, val);
            var x := s.txns[t];
            s' == SetTxn(s, t, if w then x.(wr := x.wr[r := a]) else x.(rd := x.rd[r := a]))
  {
    assert reached(Apply(s, Peek(t, r, w), false));
    var s1 := DoPeek(s, t, r, w);
    assert reached(Apply(s1, CopyRow(t), false));
    var s2 := DoCopyRow(s1, t);
    assert s2.txns[t].phase == Copied(r, w, s.rows[r].word, s.rows[r].data);
    assert reached(Apply(s2, Recheck(t, val), false));
    s' := DoRecheck(s2, t, val);
  }

  /** An undisturbed transaction with one write locks it. */
  lemma ReachedLock(reached: State -> bool, s: State, t: nat, r: nat, cts: nat) returns (s': State)
    requires Closed(reached) && reached(s) && Enabled(s, BeginLocking(t, cts)) && r in s.txns[t].wr && r < |s.rows|
    requires s.rows[r].lock == FREE && s.rows[r].word.wts == s.txns[t].wr[r].wts
    ensures reached(s')
    ensures s' == SetTxn(SetRow(s, r, s.rows[r].(lock := t)), t, s.txns[t].(cts := cts, phase := Locking({r})))
  {
    assert reached(Apply(s, BeginLocking(t, cts), false));
    var s1 := Apply(s, BeginLocking(t, cts), false);
    assert reached(Apply(s1, TryLock(t, r), false));
    var s2 := DoTryLock(s1, t, r);
    assert reached(Apply(s2, Check(t, r), false));
    s' := DoCheck(s2, t, r);
    assert {} + {r} == {r};
  }

  /** With its one write locked, a transaction reaches validation. */
  lemma ReachedRaise(reached: State -> bool, s: State, t: nat, r: nat) returns (s': State)
    requires Closed(reached) && reached(s) && t < |s.txns| && r < |s.rows|
    requires s.txns[t].phase == Locking({r}) && s.txns[t].wr.Keys == {r} && s.rows[r].word.Rts() < s.txns[t].cts
    ensures reached(s') && s' == SetTxn(s, t, s.txns[t].(phase := Validating({})))
  {
    assert reached(Apply(s, BeginRaising(t), false));
    var s1 := Apply(s, BeginRaising(t), false);
    assert reached(Apply(s1, Raise(t, r), false));
    var s2 := DoRaise(s1, t, r);
    assert {} + {r} == {r};
    assert reached(Apply(s2, BeginValidating(t), false));
    s' := Apply(s2, BeginValidating(t), false);
  }

  const A_READ := map[0 := Acc(10, 10, 0, 7)]
  const A_WRITE := map[2 := Acc(0, 10, 0, 7)]

  /** A wants to extend row 0 from 10 to 11 and is about to swap. */
  const AFTER_A := State([0, 0, 0], [Row(FREE, Word(10, 0), 0), Row(FREE, Word(0, 12), 0), Row(0, Word(0, 10), 0)],
                         [Txn(A_READ, A_WRITE, 11, Renewing({}, 0, Word(10, 0))), IDLE, IDLE], [])

  /** A on its way: row 0 read, row 2 accessed for writing, row 2 locked, ready to validate. */
  const A_1 := START.(txns := [Txn(A_READ, map[], 0, Running), IDLE, IDLE])
  const A_2 := START.(txns := [Txn(A_READ, A_WRITE, 0, Running), IDLE, IDLE])
  const A_3 := AFTER_A.(txns := [Txn(A_READ, A_WRITE, 11, Locking({2})), IDLE, IDLE])
  const A_4 := AFTER_A.(txns := [Txn(A_READ, A_WRITE, 11, Validating({})), IDLE, IDLE])

  lemma RunA1(reached: State -> bool)
    requires Closed(reached) && reached(START)
    ensures reached(A_1)
  {
    var s := ReachedAccess(reached, START, 0, 0, false, 7);
    assert s == A_1;
  }

  lemma RunA2(reached: State -> bool)
    requires Closed(reached) && reached(A_1)
    ensures reached(A_2)
  {
    var s := ReachedAccess(reached, A_1, 0, 2, true, 7);
    assert s == A_2;
  }

  lemma RunA3(reached: State -> bool)
    requires Closed(reached) && reached(A_2)
    ensures reached(A_3)
  {
    assert A_WRITE[2].rts + 1 == 11;
    assert Enabled(A_2, BeginLocking(0, 11));
    var s := ReachedLock(reached, A_2, 0, 2, 11);
    assert s == A_3;
  }

  lemma RunA4(reached: State -> bool)
    requires Closed(reached) && reached(A_3)
    ensures reached(A_4)
  {
    var s := ReachedRaise(reached, A_3, 0, 2);
    assert s == A_4;
  }

  lemma RunA(reached: State -> bool)
    requires Closed(reached) && reached(START)
    ensures reached(AFTER_A)
  {
    RunA1(reached);
    RunA2(reached);
    RunA3(reached);
    RunA4(reached);
    assert reached(Apply(A_4, Look(0, 0), false));
    assert DoLook(A_4, 0, 0) == AFTER_A;
  }

  const W_READ := map[1 := Acc(0, 12, 0, 9)]
  const B_READ := map[0 := Acc(10, 10, 0, 8)]
  const B_WRITE := map[1 := Acc(0, 12, 0, 8)]

  /** W has read row 1; B has read row 0 and is about to validate a write of row 1 at 13. */
  const BEFORE_B := State([0, 0, 0], [Row(FREE, Word(10, 0), 0), Row(1, Word(0, 12), 0), Row(0, Word(0, 10), 0)],
                          [AFTER_A.txns[0], Txn(B_READ, B_WRITE, 13, Validating({})), Txn(W_READ, map[], 0, Running)], [])

  function WithB(rows: seq<Row>, b: Txn, w: Txn): State {
    AFTER_A.(rows := rows, txns := [AFTER_A.txns[0], b, w])
  }

  const W_READER := Txn(W_READ, map[], 0, Running)

  lemma RunB1(reached: State -> bool)
    requires Closed(reached) && reached(AFTER_A)
    ensures reached(WithB(AFTER_A.rows, Txn(B_READ, map[], 0, Running), W_READER))
  {
    var s1 := ReachedAccess(reached, AFTER_A, 2, 1, false, 9);
    assert s1 == WithB(AFTER_A.rows, IDLE, W_READER);
    var s2 := ReachedAccess(reached, s1, 1, 0, false, 8);
    assert s2 == WithB(AFTER_A.rows, Txn(B_READ, map[], 0, Running), W_READER);
  }

  lemma RunB2(reached: State -> bool)
    requires Closed(reached) && reached(WithB(AFTER_A.rows, Txn(B_READ, map[], 0, Running), W_READER))
    ensures reached(WithB(AFTER_A.rows, Txn(B_READ, B_WRITE, 0, Running), W_READER))
  {
    var s3 := ReachedAccess(reached, WithB(AFTER_A.rows, Txn(B_READ, map[], 0, Running), W_READER), 1, 1, true, 8);
    assert s3 == WithB(AFTER_A.rows, Txn(B_READ, B_WRITE, 0, Running), W_READER);
  }

  lemma RunB3(reached: State -> bool)
    requires Closed(reached) && reached(WithB(AFTER_A.rows, Txn(B_READ, B_WRITE, 0, Running), W_READER))
    ensures reached(WithB(BEFORE_B.rows, Txn(B_READ, B_WRITE, 13, Locking({1})), W_READER))
  {
    var s3 := WithB(AFTER_A.rows, Txn(B_READ, B_WRITE, 0, Running), W_READER);
    assert B_WRITE[1].rts + 1 == 13;
    assert Enabled(s3, BeginLocking(1, 13));
    var s4 := ReachedLock(reached, s3, 1, 1, 13);
    assert s4 == WithB(BEFORE_B.rows, Txn(B_READ, B_WRITE, 13, Locking({1})), W_READER);
  }

  lemma RunBStart(reached: State -> bool)
    requires Closed(reached) && reached(START)
    ensures reached(BEFORE_B)
  {
    RunA(reached);
    RunB1(reached);
    RunB2(reached);
    RunB3(reached);
    var s5 := ReachedRaise(reached, WithB(BEFORE_B.rows, Txn(B_READ, B_WRITE, 13, Locking({1})), W_READER), 1, 1);
    assert s5 == BEFORE_B;
  }

  const B_RECORD := Committed(1, 13, map[0 := 0, 1 := 0], map[1 := 8])
  const B_DONE := Txn(B_READ, B_WRITE, 13, Installing({}, {}))

  /** B has extended row 0 to 13 and committed. */
  const AFTER_B := BEFORE_B.(rows := [Row(FREE, Word(10, 3), 0), Row(1, Word(0, 12), 0), Row(0, Word(0, 10), 0)],
                             txns := [AFTER_A.txns[0], B_DONE, Txn(W_READ, map[], 0, Running)], hist := [B_RECORD])

  /** B has extended row 0 to 13. */
  const B_RENEWED := BEFORE_B.(rows := AFTER_B.rows,
      txns := [AFTER_A.txns[0], Txn(B_READ, B_WRITE, 13, Validating({0})), Txn(W_READ, map[], 0, Running)])

  lemma RunBRenew(reached: State -> bool)
    requires Closed(reached) && reached(START)
    ensures reached(B_RENEWED)
  {
    RunBStart(reached);
    assert reached(Apply(BEFORE_B, Look(1, 0), false));
    var s1 := DoLook(BEFORE_B, 1, 0);
    assert s1.txns[1].phase == Renewing({}, 0, Word(10, 0));
    assert reached(Apply(s1, Swap(1), false));
    assert Renewed(10, 13) == Word(10, 3);
    assert {} + {0} == {0};
    assert DoSwap(s1, 1, false) == B_RENEWED;
  }

  lemma RunB(reached: State -> bool)
    requires Closed(reached) && reached(START)
    ensures reached(AFTER_B)
  {
    RunBRenew(reached);
    assert reached(Apply(B_RENEWED, Commit(1), false));
    assert RecordOf(1, B_RENEWED.txns[1]) == B_RECORD;
    assert Insert([], B_RECORD) == [B_RECORD];
    assert DoCommit(B_RENEWED, 1) == AFTER_B;
  }

  /** A's first swap fails, 11 is not below the length 3, and the second swap cuts the lease back to 11. */
  const AFTER_RETRY := AFTER_B.(rows := [Row(FREE, Word(10, 1), 0), Row(1, Word(0, 12), 0), Row(0, Word(0, 10), 0)],
                                txns := [Txn(A_READ, A_WRITE, 11, Validating({0})), B_DONE, Txn(W_READ, map[], 0, Running)])

  lemma RunRetry(reached: State -> bool)
    requires Closed(reached) && reached(START)
    ensures reached(AFTER_RETRY)
  {
    RunB(reached);
    assert reached(Apply(AFTER_B, Swap(0), false));
    var s1 := DoSwap(AFTER_B, 0, false);
    assert s1.txns[0].phase == Renewing({}, 0, Word(10, 3));
    assert reached(Apply(s1, Swap(0), false));
    assert Renewed(10, 11) == Word(10, 1);
    assert {} + {0} == {0};
    assert DoSwap(s1, 0, false) == AFTER_RETRY;
  }

  const W_RECORD := Committed(2, 12, map[0 := 0, 1 := 0], map[0 := 9])

  const W_WRITE := map[0 := Acc(10, 11, 0, 9)]

  function WithW(rows: seq<Row>, w: Txn): State {
    AFTER_RETRY.(rows := rows, txns := [AFTER_RETRY.txns[0], B_DONE, w])
  }

  const W_ROWS := [Row(2, Word(10, 1), 0), Row(1, Word(0, 12), 0), Row(0, Word(0, 10), 0)]

  lemma RunW1(reached: State -> bool)
    requires Closed(reached) && reached(AFTER_RETRY)
    ensures reached(WithW(AFTER_RETRY.rows, Txn(W_READ, W_WRITE, 0, Running)))
  {
    var s := ReachedAccess(reached, AFTER_RETRY, 2, 0, true, 9);
    assert s == WithW(AFTER_RETRY.rows, Txn(W_READ, W_WRITE, 0, Running));
  }

  lemma RunW2(reached: State -> bool)
    requires Closed(reached) && reached(WithW(AFTER_RETRY.rows, Txn(W_READ, W_WRITE, 0, Running)))
    ensures reached(WithW(W_ROWS, Txn(W_READ, W_WRITE, 12, Locking({0}))))
  {
    var s1 := WithW(AFTER_RETRY.rows, Txn(W_READ, W_WRITE, 0, Running));
    assert W_WRITE[0].rts + 1 == 12;
    assert Enabled(s1, BeginLocking(2, 12));
    var s2 := ReachedLock(reached, s1, 2, 0, 12);
    assert s2 == WithW(W_ROWS, Txn(W_READ, W_WRITE, 12, Locking({0})));
  }

  lemma RunW3(reached: State -> bool)
    requires Closed(reached) && reached(WithW(W_ROWS, Txn(W_READ, W_WRITE, 12, Locking({0}))))
    ensures reached(WithW(W_ROWS, Txn(W_READ, W_WRITE, 12, Validating({1}))))
  {
    var s3 := ReachedRaise(reached, WithW(W_ROWS, Txn(W_READ, W_WRITE, 12, Locking({0}))), 2, 0);
    assert s3 == WithW(W_ROWS, Txn(W_READ, W_WRITE, 12, Validating({})));
    assert reached(Apply(s3, KeepLease(2, 1), false));
    assert {} + {1} == {1};
    assert DoKeepLease(s3, 2, 1) == WithW(W_ROWS, Txn(W_READ, W_WRITE, 12, Validating({1})));
  }

  lemma RunW(reached: State -> bool) returns (s: State)
    requires Closed(reached) && reached(START)
    ensures reached(s) && s.hist == [W_RECORD, B_RECORD]
  {
    RunRetry(reached);
    RunW1(reached);
    RunW2(reached);
    RunW3(reached);
    var s4 := WithW(W_ROWS, Txn(W_READ, W_WRITE, 12, Validating({1})));
    assert reached(Apply(s4, Commit(2), false));
    s := DoCommit(s4, 2);
    WRecord();
  }

  lemma WRecord()
    ensures RecordOf(2, Txn(W_READ, W_WRITE, 12, Validating({1}))) == W_RECORD
    ensures Insert([B_RECORD], W_RECORD) == [W_RECORD, B_RECORD]
  {
    assert [B_RECORD][..0] == [];
  }

  /** W wrote row 0 and B wrote row 1, and each read the other's row as it was before: no order works. */
  lemma NoSerialOrder()
    ensures Replay([0, 0, 0], [W_RECORD, B_RECORD]) == None
    ensures Replay([0, 0, 0], [B_RECORD, W_RECORD]) == None
  {
    var db := [0, 0, 0];
    assert [W_RECORD, B_RECORD][..1] == [W_RECORD] && [B_RECORD, W_RECORD][..1] == [B_RECORD];
    assert [W_RECORD][..0] == [] && [B_RECORD][..0] == [];
    assert Replay(db, []) == Some(db);
    assert Replay(db, [W_RECORD]) == Some(Overwrite(db, W_RECORD.writeSet));
    assert Replay(db, [B_RECORD]) == Some(Overwrite(db, B_RECORD.writeSet));
    assert Overwrite(db, W_RECORD.writeSet)[0] == 9;
    assert Overwrite(db, B_RECORD.writeSet)[1] == 8;
  }

  /** Some schedule of the code as written leads from START to `m`. */
  ghost predicate Reached(m: State) {
    exists schedule :: Run(START, schedule, false) == Some(m)
  }

  lemma ReachedClosed()
    ensures Closed((m: State) => Reached(m)) && Reached(START)
  {
    forall m: State, a: Action | Reached(m) && Enabled(m, a)
      ensures Reached(Apply(m, a, false))
    {
      var p :| Run(START, p, false) == Some(m);
      assert (p + [a])[..|p + [a]| - 1] == p;
      assert Run(START, p + [a], false) == Some(Apply(m, a, false));
    }
    assert Run(START, [], false) == Some(START);
  }

  /** As written, the protocol has a run whose committed transactions have no serial explanation. */
  lemma LostLease()
    ensures Init(START)
    ensures exists schedule ::
      && Run(START, schedule, false).Some?
      && Run(START, schedule, false).value.hist == [W_RECORD, B_RECORD]
    ensures Replay(START.db, [W_RECORD, B_RECORD]) == None && Replay(START.db, [B_RECORD, W_RECORD]) == None
  {
    ReachedClosed();
    var s := RunW((m: State) => Reached(m));
    var schedule :| Run(START, schedule, false) == Some(s);
    NoSerialOrder();
  }
}
