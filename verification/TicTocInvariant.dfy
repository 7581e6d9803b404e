/**
 * The invariant of the TicToc machine, and how steps of other transactions leave it alone.
 */
module TicTocInvariant {
  import opened Wrappers
  import opened Serial
  import opened TicToc

  /** Row `r` has value `v` throughout the logical times lo..hi. */
  ghost predicate Holds(s: State, r: nat, lo: nat, hi: nat, v: Value)
    requires r < |s.db|
  {
    forall t: nat :: lo <= t <= hi ==> At(s.hist, s.db[r], r, t) == v
  }

  /** The value the word of `r` stands for. */
  function Version(s: State, r: nat): Value
    requires r < |s.db| == |s.rows|
  {
    At(s.hist, s.db[r], r, s.rows[r].word.wts)
  }

  /** Locked by a committed transaction that has not yet stored its word. */
  predicate Pending(s: State, r: nat)
    requires r < |s.rows|
  {
    var o := s.rows[r].lock;
    0 <= o < |s.txns| && s.txns[o].phase.Installing? && r !in s.txns[o].phase.worded
  }

  /** New word stored, old tuple still in place. */
  predicate Torn(s: State, r: nat)
    requires r < |s.rows|
  {
    var o := s.rows[r].lock;
    0 <= o < |s.txns| && s.txns[o].phase.Installing? && r in s.txns[o].phase.worded && r !in s.txns[o].phase.copied
  }

  /** No committed transaction that touched `r` is later than this. */
  function Cap(s: State, r: nat): nat
    requires r < |s.rows|
  {
    if Pending(s, r) then s.txns[s.rows[r].lock].cts else s.rows[r].word.Rts()
  }

  ghost predicate RowOK(s: State, r: nat)
    requires r < |s.db| == |s.rows|
  {
    var row := s.rows[r];
    && Holds(s, r, row.word.wts, row.word.Rts(), Version(s, r))
    && (forall i :: 0 <= i < |s.hist| && Accesses(s.hist[i], r) ==> s.hist[i].ts <= Cap(s, r))
    && (!Torn(s, r) ==> row.data == Version(s, r))
    && (Pending(s, r) || Torn(s, r) ==>
          var o := s.txns[row.lock];
          r in o.wr && At(s.hist, s.db[r], r, o.cts) == o.wr[r].val)
  }

  /** A lease that was read: still backed by the history and by the row. */
  ghost predicate LeaseOK(s: State, r: nat, wts: nat, rts: nat, v: Value)
    requires r < |s.db| == |s.rows|
  {
    && wts <= rts <= s.rows[r].word.Rts()
    && wts <= s.rows[r].word.wts
    && Holds(s, r, wts, rts, v)
  }

  ghost predicate PeekOK(s: State, p: Phase)
    requires |s.db| == |s.rows|
  {
    p.Peeked? || p.Copied? ==>
      && p.row < |s.rows|
      && LeaseOK(s, p.row, p.v.wts, p.v.Rts(), At(s.hist, s.db[p.row], p.row, p.v.wts))
      && (s.rows[p.row].word.wts == p.v.wts ==>
            var now := At(s.hist, s.db[p.row], p.row, p.v.wts);
            if p.Copied? then p.copy == now else !Torn(s, p.row) && s.rows[p.row].data == now)
  }

  predicate Live(p: Phase) {
    !p.Installing? && !p.Aborting?
  }

  predicate HasCts(p: Phase) {
    p.Locking? || p.Raising? || p.Validating? || p.Renewing?
  }

  /** The rows a transaction may hold locked, and what it knows about them. */
  predicate LocksOK(s: State, t: nat)
    requires t < |s.txns|
  {
    var x := s.txns[t];
    && (forall r :: r in x.rd ==> r < |s.rows| && r !in x.wr)
    && (forall r :: r in x.wr ==> r < |s.rows|)
    && match x.phase
       case Running => true
       case Peeked(row, _, _) => row < |s.rows| && row !in x.rd && row !in x.wr
       case Copied(row, _, _, _) => row < |s.rows| && row !in x.rd && row !in x.wr
       case Locking(checked) => forall r :: r in checked ==> r in x.wr && Mine(s, t, r)
       case Raising(raised) =>
         && (forall r :: r in x.wr ==> Mine(s, t, r))
         && (forall r :: r in raised ==> r in x.wr && s.rows[r].word.Rts() < x.cts)
       case Validating(valid) => forall r :: r in x.wr ==> Mine(s, t, r) && s.rows[r].word.Rts() < x.cts
       case Renewing(valid, q, v) =>
         && (forall r :: r in x.wr ==> Mine(s, t, r) && s.rows[r].word.Rts() < x.cts)
         && q in x.rd && v.wts == x.rd[q].wts
       case Installing(worded, copied) =>
         && (forall r :: r in copied ==> r in worded)
         && (forall r :: r in worded ==> r in x.wr)
         && (forall r :: r in x.wr && r !in worded ==> s.rows[r].lock == t && s.rows[r].word.Rts() < x.cts)
         && (forall r :: r in worded && r !in copied ==> s.rows[r].lock == t && s.rows[r].word == Word(x.cts, 0))
       case Aborting => true
  }

  /** Locked by `t`, at the version `t` read. */
  predicate Mine(s: State, t: nat, r: nat)
    requires t < |s.txns|
  {
    r < |s.rows| && r in s.txns[t].wr && s.rows[r].lock == t && s.rows[r].word.wts == s.txns[t].wr[r].wts
  }

  ghost predicate LeasesOK(s: State, t: nat)
    requires t < |s.txns| && |s.db| == |s.rows|
    requires LocksOK(s, t)
  {
    var x := s.txns[t];
    Live(x.phase) ==>
      && (forall r :: r in x.rd ==> LeaseOK(s, r, x.rd[r].wts, x.rd[r].rts, x.rd[r].data))
      && (forall r :: r in x.wr ==> LeaseOK(s, r, x.wr[r].wts, x.wr[r].rts, x.wr[r].data))
      && PeekOK(s, x.phase)
  }

  predicate CtsOK(x: Txn) {
    HasCts(x.phase) ==>
      && (forall r :: r in x.rd ==> x.rd[r].wts <= x.cts)
      && (forall r :: r in x.wr ==> x.wr[r].rts < x.cts)
  }

  /** Validated rows carry the value that was read up to the commit timestamp. */
  ghost predicate ValidOK(s: State, t: nat)
    requires t < |s.txns| && |s.db| == |s.rows|
    requires LocksOK(s, t)
  {
    var x := s.txns[t];
    x.phase.Validating? || x.phase.Renewing? ==>
      forall r :: r in x.phase.valid ==> r in x.rd && LeaseOK(s, r, x.rd[r].wts, x.cts, x.rd[r].data)
  }

  ghost predicate TxnOK(s: State, t: nat)
    requires t < |s.txns| && |s.db| == |s.rows|
  {
    LocksOK(s, t) && LeasesOK(s, t) && CtsOK(s.txns[t]) && ValidOK(s, t)
  }

  /** A set lock bit belongs to a transaction that knows about it. */
  predicate LockHeld(s: State, r: nat)
    requires r < |s.rows|
  {
    var o := s.rows[r].lock;
    o == FREE || (0 <= o < |s.txns| && r in s.txns[o].wr
        && (HasCts(s.txns[o].phase) || s.txns[o].phase.Installing? || s.txns[o].phase.Aborting?))
  }

  /** The history holds exactly the transactions that committed, each with what it really did. */
  ghost predicate HistoryOK(s: State) {
    && DistinctIds(s.hist)
    && (forall c :: c in s.hist ==> c.id < |s.txns| && s.txns[c.id].phase.Installing? && c == RecordOf(c.id, s.txns[c.id]))
    && (forall t :: 0 <= t < |s.txns| && s.txns[t].phase.Installing? ==> RecordOf(t, s.txns[t]) in s.hist)
  }

  ghost predicate Inv(s: State) {
    && |s.db| == |s.rows|
    && Sorted(s.hist) && Consistent(s.db, s.hist) && HistoryOK(s)
    && (forall r :: 0 <= r < |s.rows| ==> LockHeld(s, r) && RowOK(s, r))
    && (forall t :: 0 <= t < |s.txns| ==> TxnOK(s, t))
  }

  lemma InitInv(s: State)
    requires Init(s)
    ensures Inv(s)
  {
  }

  // ----- other transactions

  /** What another transaction's action may do to a row that `u` has not locked. */
  predicate Grows(s: State, s': State, r: nat)
    requires r < |s.rows| == |s'.rows|
  {
    var row, row' := s.rows[r], s'.rows[r];
    && row.word.wts <= row'.word.wts
    && row.word.Rts() <= row'.word.Rts()
    && (row.word.wts == row'.word.wts && !Torn(s, r) ==> row.data == row'.data && !Torn(s', r))
  }

  /** A transaction that did not move is not disturbed when rows only grow and its locks are respected. */
  lemma Undisturbed(s: State, s': State, u: nat)
    requires u < |s.txns| == |s'.txns| && |s.db| == |s.rows| == |s'.rows|
    requires s'.db == s.db && s'.hist == s.hist && s'.txns[u] == s.txns[u]
    requires TxnOK(s, u)
    requires forall r :: 0 <= r < |s.rows| ==> Grows(s, s', r)
    requires forall r :: 0 <= r < |s.rows| && s.rows[r].lock == u ==> s'.rows[r] == s.rows[r]
    ensures TxnOK(s', u)
  {
    var x := s.txns[u];
    UndisturbedLocks(s, s', u);
    forall r, wts, rts, v | 0 <= r < |s.rows| && LeaseOK(s, r, wts, rts, v)
      ensures LeaseOK(s', r, wts, rts, v)
    {
      assert Grows(s, s', r);
    }
    if Live(x.phase) {
      assert forall r :: r in x.rd ==> LeaseOK(s, r, x.rd[r].wts, x.rd[r].rts, x.rd[r].data);
      assert forall r :: r in x.wr ==> LeaseOK(s, r, x.wr[r].wts, x.wr[r].rts, x.wr[r].data);
      if x.phase.Peeked? || x.phase.Copied? {
        UndisturbedPeek(s, s', x.phase);
      }
    }
  }

  lemma UndisturbedLocks(s: State, s': State, u: nat)
    requires u < |s.txns| == |s'.txns| && |s.rows| == |s'.rows| && s'.txns[u] == s.txns[u] && LocksOK(s, u)
    requires forall r :: 0 <= r < |s.rows| && s.rows[r].lock == u ==> s'.rows[r] == s.rows[r]
    ensures LocksOK(s', u)
  {
  }

  lemma UndisturbedPeek(s: State, s': State, p: Phase)
    requires |s.db| == |s.rows| == |s'.rows| && s'.db == s.db && s'.hist == s.hist
    requires (p.Peeked? || p.Copied?) && PeekOK(s, p) && Grows(s, s', p.row)
    ensures PeekOK(s', p)
  {
  }

  // ----- the two shapes of an action that does not commit

  /** Only `t` moves, and it neither is nor becomes committed. */
  lemma LocalStep(s: State, t: nat, y: Txn)
    requires Inv(s) && t < |s.txns|
    requires !s.txns[t].phase.Installing? && !y.phase.Installing?
    requires TxnOK(SetTxn(s, t, y), t)
    requires forall r :: 0 <= r < |s.rows| && s.rows[r].lock == t ==> r in y.wr && (HasCts(y.phase) || y.phase.Aborting?)
    ensures Inv(SetTxn(s, t, y))
  {
    var s' := SetTxn(s, t, y);
    forall r | 0 <= r < |s'.rows|
      ensures LockHeld(s', r) && RowOK(s', r)
    {
      assert LockHeld(s, r) && RowOK(s, r);
    }
    forall u | 0 <= u < |s'.txns|
      ensures TxnOK(s', u)
    {
      assert TxnOK(s, u);
      if u != t {
        assert forall r :: 0 <= r < |s.rows| ==> Grows(s, s', r);
        Undisturbed(s, s', u);
      }
    }
    assert HistoryOK(s');
  }

  ghost predicate SameBut(p: Phase, q: Phase, r: nat) {
    && p.Installing? == q.Installing?
    && (p.Installing? ==> forall k :: k != r ==> (k in p.worded <==> k in q.worded) && (k in p.copied <==> k in q.copied))
  }

  /** `t` changes one row, which was free or its own, and moves without touching its access sets. */
  lemma RowStep(s: State, t: nat, y: Txn, r: nat, row: Row)
    requires Inv(s) && t < |s.txns| && r < |s.rows|
    requires y.rd == s.txns[t].rd && y.wr == s.txns[t].wr && y.cts == s.txns[t].cts
    requires SameBut(s.txns[t].phase, y.phase, r)
    requires s.rows[r].lock == FREE || s.rows[r].lock == t
    requires row.lock == FREE || row.lock == t
    requires HasCts(y.phase) || y.phase.Installing? || y.phase.Aborting?
    requires r in y.wr || row.lock == FREE
    requires Grows(s, SetTxn(SetRow(s, r, row), t, y), r)
    requires RowOK(SetTxn(SetRow(s, r, row), t, y), r)
    requires TxnOK(SetTxn(SetRow(s, r, row), t, y), t)
    ensures Inv(SetTxn(SetRow(s, r, row), t, y))
  {
    var s' := SetTxn(SetRow(s, r, row), t, y);
    forall q | 0 <= q < |s'.rows|
      ensures LockHeld(s', q) && RowOK(s', q)
    {
      assert LockHeld(s, q) && RowOK(s, q);
      if q != r {
        RowElsewhere(s, t, y, r, row, q);
      }
    }
    forall q | 0 <= q < |s'.rows|
      ensures Grows(s, s', q)
    {
      if q != r {
        assert s'.rows[q] == s.rows[q];
        assert Torn(s', q) == Torn(s, q);
      }
    }
    forall u | 0 <= u < |s'.txns|
      ensures TxnOK(s', u)
    {
      assert TxnOK(s, u);
      if u != t {
        Undisturbed(s, s', u);
      }
    }
    SameRecords(s, s', t);
  }

  lemma RowElsewhere(s: State, t: nat, y: Txn, r: nat, row: Row, q: nat)
    requires |s.db| == |s.rows| && t < |s.txns| && r < |s.rows| && q < |s.rows| && q != r
    requires y.wr == s.txns[t].wr && y.cts == s.txns[t].cts
    requires SameBut(s.txns[t].phase, y.phase, r)
    requires RowOK(s, q)
    ensures RowOK(SetTxn(SetRow(s, r, row), t, y), q)
  {
    var s' := SetTxn(SetRow(s, r, row), t, y);
    assert s'.rows[q] == s.rows[q];
    assert Torn(s', q) == Torn(s, q) && Pending(s', q) == Pending(s, q);
    assert Holds(s', q, s.rows[q].word.wts, s.rows[q].word.Rts(), Version(s', q));
  }

  lemma SameRecords(s: State, s': State, t: nat)
    requires HistoryOK(s) && t < |s.txns| == |s'.txns| && s'.hist == s.hist
    requires forall u :: 0 <= u < |s.txns| && u != t ==> s'.txns[u] == s.txns[u]
    requires s'.txns[t].rd == s.txns[t].rd && s'.txns[t].wr == s.txns[t].wr && s'.txns[t].cts == s.txns[t].cts
    requires s'.txns[t].phase.Installing? == s.txns[t].phase.Installing?
    ensures HistoryOK(s')
  {
    assert forall u :: 0 <= u < |s.txns| ==> RecordOf(u, s'.txns[u]) == RecordOf(u, s.txns[u]);
  }
}
