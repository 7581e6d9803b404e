/**
 * Every action of the TicToc machine keeps the invariant, as long as no compare-and-swap
 * stores a shorter lease than the one it replaces.
 */
module TicTocSteps {
  import opened Wrappers
  import opened Serial
  import opened TicToc
  import opened TicTocInvariant

  /** A compare-and-swap of try_renew() that is about to succeed on a longer lease than it wants. */
  predicate Shortens(s: State, a: Action) {
    && a.Swap? && Enabled(s, a)
    && var x := s.txns[a.t];
       var r := x.phase.renewing;
       s.rows[r].lock == FREE && s.rows[r].word == x.phase.v && x.cts - x.rd[r].wts < x.phase.v.len
  }

  /** A row that no committed transaction is about to overwrite keeps its value forever. */
  lemma SettledRow(s: State, r: nat, t: nat)
    requires r < |s.db| == |s.rows| && Sorted(s.hist)
    requires RowOK(s, r) && !Pending(s, r)
    requires s.rows[r].word.wts <= t
    ensures At(s.hist, s.db[r], r, t) == Version(s, r)
  {
    var rts := s.rows[r].word.Rts();
    if rts < t {
      forall i | 0 <= i < |s.hist| && r in s.hist[i].writeSet
        ensures s.hist[i].ts <= rts
      {
        assert Accesses(s.hist[i], r);
      }
      AtEnd(s.hist, s.db[r], r, rts, t);
    }
  }

  /** Before validation a transaction holds no lock; later only locks of its write set. */
  lemma LocksOf(s: State, t: nat)
    requires Inv(s) && t < |s.txns|
    ensures s.txns[t].phase.Running? || s.txns[t].phase.Peeked? || s.txns[t].phase.Copied? ==>
        forall q :: 0 <= q < |s.rows| ==> s.rows[q].lock != t
    ensures forall q :: 0 <= q < |s.rows| && s.rows[q].lock == t ==> q in s.txns[t].wr
  {
    forall q | 0 <= q < |s.rows| && s.rows[q].lock == t
      ensures q in s.txns[t].wr && !s.txns[t].phase.Running? && !s.txns[t].phase.Peeked? && !s.txns[t].phase.Copied?
    {
      assert LockHeld(s, q);
    }
  }

  lemma KeepPeek(s: State, t: nat, r: nat, w: bool)
    requires Inv(s) && Enabled(s, Peek(t, r, w))
    ensures Inv(DoPeek(s, t, r, w))
  {
    assert TxnOK(s, t) && RowOK(s, r);
    LocksOf(s, t);
    LocalStep(s, t, s.txns[t].(phase := Peeked(r, w, s.rows[r].word)));
  }

  lemma KeepCopyRow(s: State, t: nat)
    requires Inv(s) && Enabled(s, CopyRow(t))
    ensures Inv(DoCopyRow(s, t))
  {
    assert TxnOK(s, t);
    var p := s.txns[t].phase;
    LocksOf(s, t);
    LocalStep(s, t, s.txns[t].(phase := Copied(p.row, p.write, p.v, s.rows[p.row].data)));
  }

  lemma KeepRecheck(s: State, t: nat, val: Value)
    requires Inv(s) && Enabled(s, Recheck(t, val))
    ensures Inv(DoRecheck(s, t, val))
  {
    assert TxnOK(s, t);
    LocksOf(s, t);
    RecheckTxn(s, t, val);
    LocalStep(s, t, DoRecheck(s, t, val).txns[t]);
  }

  lemma RecheckLocks(s: State, t: nat, val: Value)
    requires |s.db| == |s.rows| && Enabled(s, Recheck(t, val)) && LocksOK(s, t)
    ensures LocksOK(DoRecheck(s, t, val), t)
  {
  }

  lemma RecheckTxn(s: State, t: nat, val: Value)
    requires |s.db| == |s.rows| && Enabled(s, Recheck(t, val)) && TxnOK(s, t)
    ensures TxnOK(DoRecheck(s, t, val), t)
  {
    var s', x, p := DoRecheck(s, t, val), s.txns[t], s.txns[t].phase;
    RecheckLocks(s, t, val);
    SameLeases(s, s');
    assert PeekOK(s, p);
    assert forall r :: r in x.rd ==> LeaseOK(s, r, x.rd[r].wts, x.rd[r].rts, x.rd[r].data);
    assert forall r :: r in x.wr ==> LeaseOK(s, r, x.wr[r].wts, x.wr[r].rts, x.wr[r].data);
  }

  lemma KeepModify(s: State, t: nat, r: nat, val: Value)
    requires Inv(s) && Enabled(s, Modify(t, r, val))
    ensures Inv(DoModify(s, t, r, val))
  {
    assert TxnOK(s, t);
    var x, y := s.txns[t], DoModify(s, t, r, val).txns[t];
    assert forall q :: q in x.wr ==> q in y.wr && y.wr[q].(val := 0) == x.wr[q].(val := 0);
    LocksOf(s, t);
    LocalStep(s, t, y);
  }

  lemma KeepBeginLocking(s: State, t: nat, cts: nat)
    requires Inv(s) && Enabled(s, BeginLocking(t, cts))
    ensures Inv(Apply(s, BeginLocking(t, cts), false))
  {
    assert TxnOK(s, t);
    LocksOf(s, t);
    LocalStep(s, t, s.txns[t].(phase := Locking({}), cts := cts));
  }

  lemma KeepCheck(s: State, t: nat, r: nat)
    requires Inv(s) && Enabled(s, Check(t, r))
    ensures Inv(DoCheck(s, t, r))
  {
    assert TxnOK(s, t);
    LocksOf(s, t);
    LocalStep(s, t, DoCheck(s, t, r).txns[t]);
  }

  lemma KeepRaise(s: State, t: nat, r: nat)
    requires Inv(s) && Enabled(s, Raise(t, r))
    ensures Inv(DoRaise(s, t, r))
  {
    assert TxnOK(s, t);
    LocksOf(s, t);
    LocalStep(s, t, DoRaise(s, t, r).txns[t]);
  }

  /** BeginRaising, BeginValidating and Abort only change the phase. */
  lemma KeepPhase(s: State, t: nat, p: Phase)
    requires Inv(s) && t < |s.txns|
    requires (Enabled(s, BeginRaising(t)) && p == Raising({})) || (Enabled(s, BeginValidating(t)) && p == Validating({}))
        || (Enabled(s, Abort(t)) && p == Aborting)
    ensures Inv(SetTxn(s, t, s.txns[t].(phase := p)))
  {
    assert TxnOK(s, t);
    LocksOf(s, t);
    PhaseTxn(s, t, p);
    LocalStep(s, t, s.txns[t].(phase := p));
  }

  lemma PhaseTxn(s: State, t: nat, p: Phase)
    requires |s.db| == |s.rows| && t < |s.txns| && TxnOK(s, t)
    requires (Enabled(s, BeginRaising(t)) && p == Raising({})) || (Enabled(s, BeginValidating(t)) && p == Validating({}))
        || (Enabled(s, Abort(t)) && p == Aborting)
    ensures TxnOK(SetTxn(s, t, s.txns[t].(phase := p)), t)
  {
    PhaseLocks(s, t, p);
    LocalLeases(s, t, s.txns[t].(phase := p));
  }

  lemma PhaseLocks(s: State, t: nat, p: Phase)
    requires t < |s.txns| && LocksOK(s, t)
    requires (Enabled(s, BeginRaising(t)) && p == Raising({})) || (Enabled(s, BeginValidating(t)) && p == Validating({}))
        || (Enabled(s, Abort(t)) && p == Aborting)
    ensures LocksOK(SetTxn(s, t, s.txns[t].(phase := p)), t)
  {
    var s' := SetTxn(s, t, s.txns[t].(phase := p));
    assert forall r :: Mine(s', t, r) == Mine(s, t, r);
  }

  /** What a transaction knows of its accesses does not depend on its phase. */
  lemma LocalLeases(s: State, t: nat, y: Txn)
    requires |s.db| == |s.rows| && t < |s.txns| && TxnOK(s, t) && LocksOK(SetTxn(s, t, y), t)
    requires y.rd == s.txns[t].rd && y.wr == s.txns[t].wr && (Live(y.phase) ==> Live(s.txns[t].phase)) && !y.phase.Peeked?
        && !y.phase.Copied?
    ensures LeasesOK(SetTxn(s, t, y), t)
  {
    var s', x := SetTxn(s, t, y), s.txns[t];
    if Live(y.phase) {
      SameLeases(s, s');
      assert forall r :: r in x.rd ==> LeaseOK(s, r, x.rd[r].wts, x.rd[r].rts, x.rd[r].data);
      assert forall r :: r in x.wr ==> LeaseOK(s, r, x.wr[r].wts, x.wr[r].rts, x.wr[r].data);
    }
  }

  lemma SameLeases(s: State, s': State)
    requires |s.db| == |s.rows| && s'.db == s.db && s'.rows == s.rows && s'.hist == s.hist
    ensures forall r, wts: nat, rts: nat, v :: 0 <= r < |s.rows| && LeaseOK(s, r, wts, rts, v) ==> LeaseOK(s', r, wts, rts, v)
  {
  }

  /** One more validated row. */
  lemma KeepValid(s: State, t: nat, r: nat, y: Txn)
    requires Inv(s) && t < |s.txns|
    requires s.txns[t].phase.Validating? || s.txns[t].phase.Renewing?
    requires r in s.txns[t].rd && r < |s.rows| && s.txns[t].rd[r].wts <= s.txns[t].cts
    requires y == s.txns[t].(phase := Validating(s.txns[t].phase.valid + {r}))
    requires LeaseOK(s, r, s.txns[t].rd[r].wts, s.txns[t].cts, s.txns[t].rd[r].data)
    ensures Inv(SetTxn(s, t, y))
  {
    assert TxnOK(s, t);
    LocksOf(s, t);
    LocalStep(s, t, y);
  }

  lemma KeepKeepLease(s: State, t: nat, r: nat)
    requires Inv(s) && Enabled(s, KeepLease(t, r))
    ensures Inv(DoKeepLease(s, t, r))
  {
    assert TxnOK(s, t);
    KeepValid(s, t, r, DoKeepLease(s, t, r).txns[t]);
  }

  /** A lease at the version that was read, reaching the commit timestamp, validates the read. */
  lemma LeaseReaches(s: State, t: nat, r: nat)
    requires Inv(s) && t < |s.txns| && HasCts(s.txns[t].phase)
    requires r in s.txns[t].rd && r < |s.rows|
    requires s.rows[r].word.wts == s.txns[t].rd[r].wts && s.txns[t].cts <= s.rows[r].word.Rts()
    ensures LeaseOK(s, r, s.txns[t].rd[r].wts, s.txns[t].cts, s.txns[t].rd[r].data)
  {
    assert TxnOK(s, t) && RowOK(s, r);
    var a := s.txns[t].rd[r];
    assert At(s.hist, s.db[r], r, a.wts) == a.data;
  }

  lemma KeepLook(s: State, t: nat, r: nat)
    requires Inv(s) && Enabled(s, Look(t, r))
    ensures Inv(DoLook(s, t, r))
  {
    assert TxnOK(s, t);
    var x, row := s.txns[t], s.rows[r];
    var y := DoLook(s, t, r).txns[t];
    if row.word.wts == x.rd[r].wts && row.word.len >= x.cts - x.rd[r].wts {
      LeaseReaches(s, t, r);
      KeepValid(s, t, r, y);
    } else {
      LocksOf(s, t);
      LocalStep(s, t, y);
    }
  }

  /** The renewed word ends exactly at the requested timestamp, rebased or not. */
  lemma RenewedRts(wts: nat, cts: nat)
    requires wts <= cts
    ensures Renewed(wts, cts).Rts() == cts && Renewed(wts, cts).len < LEASES
    ensures wts <= Renewed(wts, cts).wts
    ensures cts - wts < LEASES ==> Renewed(wts, cts).wts == wts
  {
  }

  lemma KeepSwap(s: State, t: nat, byLength: bool)
    requires Inv(s) && Enabled(s, Swap(t)) && !Shortens(s, Swap(t))
    ensures Inv(DoSwap(s, t, byLength))
  {
    assert TxnOK(s, t);
    var x := s.txns[t];
    var r := x.phase.renewing;
    if s.rows[r].lock == FREE && s.rows[r].word == x.phase.v {
      KeepRenewal(s, t, r, x.(phase := Validating(x.phase.valid + {r})));
    } else {
      KeepFailedSwap(s, t, byLength);
    }
  }

  lemma KeepFailedSwap(s: State, t: nat, byLength: bool)
    requires Inv(s) && Enabled(s, Swap(t))
    requires var r := s.txns[t].phase.renewing; !(s.rows[r].lock == FREE && s.rows[r].word == s.txns[t].phase.v)
    ensures Inv(DoSwap(s, t, byLength))
  {
    assert TxnOK(s, t);
    var x := s.txns[t];
    var r := x.phase.renewing;
    var a, row := x.rd[r], s.rows[r];
    if x.cts - a.wts >= LEASES || row.lock != FREE || row.word.wts != a.wts {
      KeepPhase(s, t, Aborting);
    } else if LongEnough(byLength, a.wts, x.cts, row.word.len) {
      LeaseReaches(s, t, r);
      KeepValid(s, t, r, x.(phase := Validating(x.phase.valid + {r})));
    } else {
      var y := x.(phase := Renewing(x.phase.valid, r, row.word));
      LocksOf(s, t);
      RetryTxn(s, t, y);
      LocalStep(s, t, y);
    }
  }

  /** A failed compare-and-swap that tries again. */
  lemma RetryTxn(s: State, t: nat, y: Txn)
    requires |s.db| == |s.rows| && t < |s.txns| && TxnOK(s, t) && s.txns[t].phase.Renewing?
    requires y.phase.Renewing? && y == s.txns[t].(phase := Renewing(s.txns[t].phase.valid, s.txns[t].phase.renewing, y.phase.v))
    requires s.txns[t].phase.renewing in s.txns[t].rd && y.phase.v.wts == s.txns[t].rd[s.txns[t].phase.renewing].wts
    ensures TxnOK(SetTxn(s, t, y), t)
  {
    var s' := SetTxn(s, t, y);
    assert forall r :: Mine(s', t, r) == Mine(s, t, r);
    LocalLeases(s, t, y);
    SameLeases(s, s');
  }

  /** The successful compare-and-swap. */
  lemma KeepRenewal(s: State, t: nat, r: nat, y: Txn)
    requires Inv(s) && t < |s.txns| && s.txns[t].phase.Renewing? && r == s.txns[t].phase.renewing
    requires r in s.txns[t].rd && r < |s.rows| && s.txns[t].rd[r].wts <= s.txns[t].cts
    requires s.rows[r].lock == FREE && s.rows[r].word == s.txns[t].phase.v
    requires s.rows[r].word.len <= s.txns[t].cts - s.txns[t].rd[r].wts
    requires y == s.txns[t].(phase := Validating(s.txns[t].phase.valid + {r}))
    ensures Inv(SetTxn(SetRow(s, r, s.rows[r].(word := Renewed(s.txns[t].rd[r].wts, s.txns[t].cts))), t, y))
  {
    var x := s.txns[t];
    var a := x.rd[r];
    var w := Renewed(a.wts, x.cts);
    var s' := SetTxn(SetRow(s, r, s.rows[r].(word := w)), t, y);
    assert TxnOK(s, t) && RowOK(s, r);
    RenewedRts(a.wts, x.cts);
    assert At(s.hist, s.db[r], r, a.wts) == a.data;
    forall u: nat | s.rows[r].word.wts <= u
      ensures At(s.hist, s.db[r], r, u) == Version(s, r)
    {
      SettledRow(s, r, u);
    }
    assert RowOK(s', r);
    RenewalTxn(s, s', t, r);
    RowStep(s, t, y, r, s.rows[r].(word := w));
  }

  /** A renewal: other rows as they were, and the lease of `r` no shorter. */
  ghost predicate Renews(s: State, s': State, t: nat, r: nat) {
    && |s.db| == |s.rows| == |s'.rows| && t < |s.txns| == |s'.txns| && r < |s.rows|
    && s'.db == s.db && s'.hist == s.hist && s.txns[t].phase.Renewing?
    && s'.txns[t] == s.txns[t].(phase := Validating(s.txns[t].phase.valid + {r}))
    && (forall q :: 0 <= q < |s.rows| && q != r ==> s'.rows[q] == s.rows[q])
    && s.rows[r].word.wts <= s'.rows[r].word.wts && s.rows[r].word.Rts() <= s'.rows[r].word.Rts()
  }

  lemma RenewalLocks(s: State, s': State, t: nat, r: nat)
    requires Renews(s, s', t, r) && LocksOK(s, t) && r in s.txns[t].rd
    ensures LocksOK(s', t)
  {
    assert forall q :: q in s.txns[t].wr ==> q != r && Mine(s, t, q);
  }

  lemma RenewalLease(s: State, s': State, t: nat, r: nat, q: nat, wts: nat, rts: nat, v: Value)
    requires Renews(s, s', t, r) && q < |s.rows| && LeaseOK(s, q, wts, rts, v)
    ensures LeaseOK(s', q, wts, rts, v)
  {
  }

  lemma RenewalLeases(s: State, s': State, t: nat, r: nat)
    requires Renews(s, s', t, r) && LocksOK(s, t) && LeasesOK(s, t) && LocksOK(s', t)
    ensures LeasesOK(s', t)
  {
    var x := s.txns[t];
    forall q | q in x.rd
      ensures LeaseOK(s', q, x.rd[q].wts, x.rd[q].rts, x.rd[q].data)
    {
      RenewalLease(s, s', t, r, q, x.rd[q].wts, x.rd[q].rts, x.rd[q].data);
    }
    forall q | q in x.wr
      ensures LeaseOK(s', q, x.wr[q].wts, x.wr[q].rts, x.wr[q].data)
    {
      RenewalLease(s, s', t, r, q, x.wr[q].wts, x.wr[q].rts, x.wr[q].data);
    }
  }

  lemma RenewalTxn(s: State, s': State, t: nat, r: nat)
    requires Renews(s, s', t, r) && TxnOK(s, t) && r in s.txns[t].rd && s'.rows[r].word.Rts() == s.txns[t].cts
    requires Holds(s, r, s.txns[t].rd[r].wts, s.txns[t].cts, s.txns[t].rd[r].data)
    ensures TxnOK(s', t)
  {
    var x := s.txns[t];
    RenewalLocks(s, s', t, r);
    RenewalLeases(s, s', t, r);
    forall q | q in x.phase.valid + {r}
      ensures LeaseOK(s', q, x.rd[q].wts, x.cts, x.rd[q].data)
    {
      if q != r { RenewalLease(s, s', t, r, q, x.rd[q].wts, x.cts, x.rd[q].data); }
    }
  }

  lemma KeepTryLock(s: State, t: nat, r: nat)
    requires Inv(s) && Enabled(s, TryLock(t, r))
    ensures Inv(DoTryLock(s, t, r))
  {
    var x := s.txns[t];
    var s' := SetTxn(SetRow(s, r, s.rows[r].(lock := t)), t, x);
    assert s' == DoTryLock(s, t, r);
    assert TxnOK(s, t) && RowOK(s, r);
    assert RowOK(s', r);
    SameWords(s, s', t);
    RowStep(s, t, x, r, s.rows[r].(lock := t));
  }

  /** Lock bits move, words and tuples do not: the leases of a transaction still stand. */
  lemma SameWords(s: State, s': State, t: nat)
    requires |s.db| == |s.rows| == |s'.rows| && t < |s.txns| == |s'.txns|
    requires s'.db == s.db && s'.hist == s.hist && TxnOK(s, t) && LocksOK(s', t)
    requires s'.txns[t].rd == s.txns[t].rd && s'.txns[t].wr == s.txns[t].wr && s'.txns[t].cts == s.txns[t].cts
    requires forall q :: 0 <= q < |s.rows| ==> s'.rows[q].word == s.rows[q].word && s'.rows[q].data == s.rows[q].data
    requires s.txns[t].phase.Locking? || s.txns[t].phase.Aborting?
    requires s'.txns[t].phase.Locking? == s.txns[t].phase.Locking?
    requires s'.txns[t].phase.Aborting? == s.txns[t].phase.Aborting?
    ensures TxnOK(s', t)
  {
    var x := s.txns[t];
    forall q, wts, rts, v | 0 <= q < |s.rows| && LeaseOK(s, q, wts, rts, v)
      ensures LeaseOK(s', q, wts, rts, v)
    {
    }
    if x.phase.Locking? {
      assert forall q :: q in x.rd ==> LeaseOK(s, q, x.rd[q].wts, x.rd[q].rts, x.rd[q].data);
      assert forall q :: q in x.wr ==> LeaseOK(s, q, x.wr[q].wts, x.wr[q].rts, x.wr[q].data);
    }
  }

  lemma KeepUnlock(s: State, t: nat, r: nat)
    requires Inv(s) && Enabled(s, Unlock(t, r))
    ensures Inv(DoUnlock(s, t, r))
  {
    var s' := DoUnlock(s, t, r);
    assert TxnOK(s, t) && RowOK(s, r) && LockHeld(s, r);
    assert RowOK(s', r);
    SameWords(s, s', t);
    RowStep(s, t, s'.txns[t], r, s.rows[r].(lock := FREE));
  }

  lemma KeepWriteWord(s: State, t: nat, r: nat)
    requires Inv(s) && Enabled(s, WriteWord(t, r))
    ensures Inv(DoWriteWord(s, t, r))
  {
    var s' := DoWriteWord(s, t, r);
    assert TxnOK(s, t) && RowOK(s, r);
    WordedTxn(s, t, r);
    WordedRow(s, t, r);
    RowStep(s, t, s'.txns[t], r, s.rows[r].(word := Word(s.txns[t].cts, 0)));
  }

  lemma WordedTxn(s: State, t: nat, r: nat)
    requires |s.db| == |s.rows| && Enabled(s, WriteWord(t, r)) && TxnOK(s, t)
    ensures TxnOK(DoWriteWord(s, t, r), t)
  {
  }

  lemma WordedRow(s: State, t: nat, r: nat)
    requires |s.db| == |s.rows| && Enabled(s, WriteWord(t, r)) && TxnOK(s, t) && RowOK(s, r)
    ensures RowOK(DoWriteWord(s, t, r), r)
    ensures Grows(s, DoWriteWord(s, t, r), r)
  {
    var s' := DoWriteWord(s, t, r);
    assert Pending(s, r) && Torn(s', r) && !Pending(s', r);
    assert Cap(s', r) == Cap(s, r);
  }

  lemma KeepWriteData(s: State, t: nat, r: nat)
    requires Inv(s) && Enabled(s, WriteData(t, r))
    ensures Inv(DoWriteData(s, t, r))
  {
    var s' := DoWriteData(s, t, r);
    assert TxnOK(s, t) && RowOK(s, r);
    DataTxn(s, t, r);
    DataRow(s, t, r);
    RowStep(s, t, s'.txns[t], r, s.rows[r].(data := s.txns[t].wr[r].val));
  }

  lemma DataTxn(s: State, t: nat, r: nat)
    requires |s.db| == |s.rows| && Enabled(s, WriteData(t, r)) && TxnOK(s, t)
    ensures TxnOK(DoWriteData(s, t, r), t)
  {
  }

  lemma DataRow(s: State, t: nat, r: nat)
    requires |s.db| == |s.rows| && Enabled(s, WriteData(t, r)) && TxnOK(s, t) && RowOK(s, r)
    ensures RowOK(DoWriteData(s, t, r), r)
    ensures Grows(s, DoWriteData(s, t, r), r) && s.rows[r].lock == t
  {
    var s' := DoWriteData(s, t, r);
    assert Torn(s, r) && !Torn(s', r) && !Pending(s', r);
    assert Cap(s', r) == Cap(s, r);
  }

  lemma KeepRelease(s: State, t: nat, r: nat)
    requires Inv(s) && Enabled(s, Release(t, r))
    ensures Inv(DoRelease(s, t, r))
  {
    var x := s.txns[t];
    var s' := SetTxn(SetRow(s, r, s.rows[r].(lock := FREE)), t, x);
    assert s' == DoRelease(s, t, r);
    assert TxnOK(s, t) && RowOK(s, r);
    ReleasedRow(s, t, r);
    RowStep(s, t, x, r, s.rows[r].(lock := FREE));
  }

  lemma ReleasedRow(s: State, t: nat, r: nat)
    requires |s.db| == |s.rows| && Enabled(s, Release(t, r)) && TxnOK(s, t) && RowOK(s, r)
    ensures var s' := SetTxn(DoRelease(s, t, r), t, s.txns[t]); TxnOK(s', t) && RowOK(s', r) && Grows(s, s', r)
  {
    var s' := SetTxn(DoRelease(s, t, r), t, s.txns[t]);
    assert !Pending(s, r) && !Pending(s', r) && !Torn(s, r) && !Torn(s', r);
    assert Cap(s', r) == Cap(s, r);
  }

  // ----- the commit

  /** What validation has established when a transaction commits. */
  lemma CommitReads(s: State, t: nat)
    requires Inv(s) && Enabled(s, Commit(t))
    ensures NoLaterAccess(s.hist, RecordOf(t, s.txns[t]))
    ensures var c := RecordOf(t, s.txns[t]);
            && (forall r :: r in c.readSet ==> r < |s.db| && c.readSet[r] == At(s.hist, s.db[r], r, c.ts))
            && (forall r :: r in c.writeSet ==> r < |s.db|)
  {
    var x, c := s.txns[t], RecordOf(t, s.txns[t]);
    assert TxnOK(s, t);
    forall i, r | 0 <= i < |s.hist| && r in c.writeSet && Accesses(s.hist[i], r)
      ensures s.hist[i].ts <= c.ts
    {
      assert Mine(s, t, r) && RowOK(s, r);
    }
    forall r | r in c.readSet
      ensures r < |s.db| && c.readSet[r] == At(s.hist, s.db[r], r, c.ts)
    {
      if r in x.rd {
        assert LeaseOK(s, r, x.rd[r].wts, x.cts, x.rd[r].data);
      } else {
        assert Mine(s, t, r) && RowOK(s, r);
        assert LeaseOK(s, r, x.wr[r].wts, x.wr[r].rts, x.wr[r].data);
        SettledRow(s, r, x.cts);
        assert At(s.hist, s.db[r], r, x.wr[r].wts) == x.wr[r].data;
      }
    }
  }

  /** Values at logical times that the commit does not reach stay what they were. */
  lemma CommitAt(s: State, t: nat, r: nat, u: nat)
    requires Inv(s) && Enabled(s, Commit(t)) && r < |s.db|
    ensures r !in s.txns[t].wr || u < s.txns[t].cts ==>
      At(DoCommit(s, t).hist, s.db[r], r, u) == At(s.hist, s.db[r], r, u)
    ensures r in s.txns[t].wr && s.txns[t].cts <= u ==>
      At(DoCommit(s, t).hist, s.db[r], r, u) == s.txns[t].wr[r].val
  {
    CommitReads(s, t);
    InsertAt(s.hist, RecordOf(t, s.txns[t]), s.db[r], r, u);
  }

  /** A lease another transaction holds survives: the commit lies behind its end. */
  lemma CommitLease(s: State, t: nat, r: nat, wts: nat, rts: nat, v: Value)
    requires Inv(s) && Enabled(s, Commit(t)) && r < |s.db|
    requires LeaseOK(s, r, wts, rts, v)
    ensures LeaseOK(DoCommit(s, t), r, wts, rts, v)
  {
    assert TxnOK(s, t);
    var s' := DoCommit(s, t);
    forall u: nat | wts <= u <= rts
      ensures At(s'.hist, s.db[r], r, u) == v
    {
      assert r in s.txns[t].wr ==> Mine(s, t, r) && s.rows[r].word.Rts() < s.txns[t].cts;
      CommitAt(s, t, r, u);
    }
  }

  lemma CommitTxn(s: State, t: nat, u: nat)
    requires Inv(s) && Enabled(s, Commit(t)) && u < |s.txns|
    ensures TxnOK(DoCommit(s, t), u)
  {
    var s', x := DoCommit(s, t), s.txns[u];
    assert TxnOK(s, u);
    if u != t {
      forall r, wts, rts, v | 0 <= r < |s.rows| && LeaseOK(s, r, wts, rts, v)
        ensures LeaseOK(s', r, wts, rts, v)
      {
        CommitLease(s, t, r, wts, rts, v);
      }
      CommitLeases(s, s', u);
      if Live(x.phase) && (x.phase.Peeked? || x.phase.Copied?) {
        CommitPeek(s, t, u);
      }
    }
  }

  lemma CommitLeases(s: State, s': State, u: nat)
    requires |s.db| == |s.rows| && u < |s.txns| == |s'.txns| && s'.rows == s.rows && s'.db == s.db
    requires TxnOK(s, u) && s'.txns[u] == s.txns[u]
    requires forall r, wts: nat, rts: nat, v :: 0 <= r < |s.rows| && LeaseOK(s, r, wts, rts, v) ==> LeaseOK(s', r, wts, rts, v)
    ensures LocksOK(s', u) && ValidOK(s', u)
    ensures Live(s.txns[u].phase) ==>
      && (forall r :: r in s.txns[u].rd ==> LeaseOK(s', r, s.txns[u].rd[r].wts, s.txns[u].rd[r].rts, s.txns[u].rd[r].data))
      && (forall r :: r in s.txns[u].wr ==> LeaseOK(s', r, s.txns[u].wr[r].wts, s.txns[u].wr[r].rts, s.txns[u].wr[r].data))
  {
    var x := s.txns[u];
    UndisturbedLocks(s, s', u);
    if Live(x.phase) {
      assert forall q :: q in x.rd ==> LeaseOK(s, q, x.rd[q].wts, x.rd[q].rts, x.rd[q].data);
      assert forall q :: q in x.wr ==> LeaseOK(s, q, x.wr[q].wts, x.wr[q].rts, x.wr[q].data);
    }
    if x.phase.Validating? || x.phase.Renewing? {
      assert forall q :: q in x.phase.valid ==> LeaseOK(s, q, x.rd[q].wts, x.cts, x.rd[q].data);
    }
  }

  lemma CommitPeek(s: State, t: nat, u: nat)
    requires Inv(s) && Enabled(s, Commit(t)) && u < |s.txns| && u != t
    requires s.txns[u].phase.Peeked? || s.txns[u].phase.Copied?
    ensures PeekOK(DoCommit(s, t), s.txns[u].phase)
  {
    var s', p := DoCommit(s, t), s.txns[u].phase;
    assert TxnOK(s, u);
    var now := At(s.hist, s.db[p.row], p.row, p.v.wts);
    CommitLease(s, t, p.row, p.v.wts, p.v.Rts(), now);
    assert At(s'.hist, s.db[p.row], p.row, p.v.wts) == now;
    assert Torn(s', p.row) == Torn(s, p.row);
  }

  lemma CommitRow(s: State, t: nat, r: nat)
    requires Inv(s) && Enabled(s, Commit(t)) && r < |s.rows|
    ensures RowOK(DoCommit(s, t), r)
  {
    var s', x, c := DoCommit(s, t), s.txns[t], RecordOf(t, s.txns[t]);
    assert TxnOK(s, t) && RowOK(s, r) && LockHeld(s, r);
    var row := s.rows[r];
    assert r in x.wr ==> Mine(s, t, r) && row.word.Rts() < x.cts;
    forall u: nat | row.word.wts <= u <= row.word.Rts()
      ensures At(s'.hist, s.db[r], r, u) == Version(s, r)
    {
      CommitAt(s, t, r, u);
    }
    assert Torn(s', r) == Torn(s, r);
    assert Pending(s', r) == (Pending(s, r) || r in x.wr);
    CommitCap(s, t, r);
    if Pending(s', r) || Torn(s', r) {
      CommitAt(s, t, r, s.txns[row.lock].cts);
    }
  }

  /** The committed transaction lies within the cap of every row it touched. */
  lemma CommitCap(s: State, t: nat, r: nat)
    requires Inv(s) && Enabled(s, Commit(t)) && r < |s.rows|
    ensures forall i :: 0 <= i < |DoCommit(s, t).hist| && Accesses(DoCommit(s, t).hist[i], r) ==>
      DoCommit(s, t).hist[i].ts <= Cap(DoCommit(s, t), r)
  {
    var s', x, c := DoCommit(s, t), s.txns[t], RecordOf(t, s.txns[t]);
    assert TxnOK(s, t) && RowOK(s, r);
    assert r in x.wr ==> Mine(s, t, r) && s.rows[r].word.Rts() < x.cts;
    assert Cap(s, r) <= Cap(s', r);
    if r in x.rd {
      assert LeaseOK(s, r, x.rd[r].wts, x.cts, x.rd[r].data);
      PendingBehind(s, r);
    }
    InsertBound(s.hist, c, r, Cap(s', r));
  }

  lemma PendingBehind(s: State, r: nat)
    requires Inv(s) && r < |s.rows|
    ensures s.rows[r].word.Rts() <= Cap(s, r)
  {
    if Pending(s, r) {
      assert TxnOK(s, s.rows[r].lock) && RowOK(s, r);
    }
  }

  lemma CommitHistory(s: State, t: nat)
    requires HistoryOK(s) && Enabled(s, Commit(t))
    ensures HistoryOK(DoCommit(s, t))
  {
    var s', c := DoCommit(s, t), RecordOf(t, s.txns[t]);
    forall i | 0 <= i < |s.hist|
      ensures s.hist[i].id != c.id
    {
      assert s.hist[i] in s.hist;
    }
    InsertMembers(s.hist, c);
    assert RecordOf(t, s'.txns[t]) == c;
  }

  lemma KeepCommit(s: State, t: nat)
    requires Inv(s) && Enabled(s, Commit(t))
    ensures Inv(DoCommit(s, t))
  {
    var s', c := DoCommit(s, t), RecordOf(t, s.txns[t]);
    CommitReads(s, t);
    InsertSorted(s.hist, c);
    InsertConsistent(s.db, s.hist, c);
    CommitHistory(s, t);
    forall r | 0 <= r < |s'.rows|
      ensures LockHeld(s', r) && RowOK(s', r)
    {
      assert LockHeld(s, r);
      CommitRow(s, t, r);
    }
    forall u | 0 <= u < |s'.txns|
      ensures TxnOK(s', u)
    {
      CommitTxn(s, t, u);
    }
  }

  /** Every action keeps the invariant unless it shortens a lease. */
  lemma KeepInv(s: State, a: Action, byLength: bool)
    requires Inv(s) && Enabled(s, a) && !Shortens(s, a)
    ensures Inv(Apply(s, a, byLength))
  {
    match a
    case Peek(t, r, w) => KeepPeek(s, t, r, w);
    case CopyRow(t) => KeepCopyRow(s, t);
    case Recheck(t, val) => KeepRecheck(s, t, val);
    case Modify(t, r, val) => KeepModify(s, t, r, val);
    case BeginLocking(t, cts) => KeepBeginLocking(s, t, cts);
    case TryLock(t, r) => KeepTryLock(s, t, r);
    case Check(t, r) => KeepCheck(s, t, r);
    case Unlock(t, r) => KeepUnlock(s, t, r);
    case BeginRaising(t) => KeepPhase(s, t, Raising({}));
    case Raise(t, r) => KeepRaise(s, t, r);
    case BeginValidating(t) => KeepPhase(s, t, Validating({}));
    case KeepLease(t, r) => KeepKeepLease(s, t, r);
    case Look(t, r) => KeepLook(s, t, r);
    case Swap(t) => KeepSwap(s, t, byLength);
    case Commit(t) => KeepCommit(s, t);
    case WriteWord(t, r) => KeepWriteWord(s, t, r);
    case WriteData(t, r) => KeepWriteData(s, t, r);
    case Release(t, r) => KeepRelease(s, t, r);
    case Abort(t) => KeepPhase(s, t, Aborting);
  }
}
