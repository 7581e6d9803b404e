/**
 * What validation of TicToc finds (trusted/concurrency_control/tictoc.cpp:100-187,
 * row_tictoc.cpp:108-157): a transaction is refused exactly on rows whose version has moved on, or
 * that are locked, since it accessed them, told from the schedule.
 */
module TicTocValid {
  import opened Wrappers
  import opened Serial
  import opened TicToc
  import opened TicTocInvariant
  import opened TicTocSteps
  import opened TicTocTheorems
  import opened TicTocClient

  /** The step gives row `r` a new write timestamp: a new version, or a lease too long for its field. */
  predicate Moves(m: State, a: Action, r: nat) {
    || (a.WriteWord? && a.r == r)
    || (&& a.Swap? && Enabled(m, a)
        && var x := m.txns[a.t];
        && x.phase.renewing == r && m.rows[r].lock == FREE && m.rows[r].word == x.phase.v
        && x.cts - x.rd[r].wts >= LEASES)
  }

  /** The rows that `t` has accessed and whose write timestamp has moved since. */
  ghost function Moved(s: State, schedule: seq<Action>, byLength: bool, t: nat): set<nat> {
    if schedule == [] then {}
    else
      var n := |schedule| - 1;
      var before := Moved(s, schedule[..n], byLength, t);
      if Run(s, schedule[..n], byLength).None? then before
      else MovedAfter(before, Run(s, schedule[..n], byLength).value, schedule[n], ClientOf(s, schedule[..n], byLength, t).seen)
  }

  ghost function MovedAfter(moved: set<nat>, m: State, a: Action, seen: map<nat, Value>): set<nat> {
    moved + set r | r in seen && Moves(m, a, r)
  }

  predicate Stands(m: State, r: nat, wts: nat) {
    r < |m.rows| && m.rows[r].word.wts == wts
  }

  /** Until its decision, the write timestamps a transaction met stand exactly on the rows not moved since. */
  predicate Tells(m: State, x: Txn, moved: set<nat>) {
    Live(x.phase) ==>
      && (forall r :: r in x.rd ==> (Stands(m, r, x.rd[r].wts) <==> r !in moved))
      && (forall r :: r in x.wr ==> (Stands(m, r, x.wr[r].wts) <==> r !in moved))
  }

  lemma {:induction false} MovedSeen(s: State, schedule: seq<Action>, byLength: bool, t: nat)
    ensures Moved(s, schedule, byLength, t) <= ClientOf(s, schedule, byLength, t).seen.Keys
  {
    if schedule != [] { MovedSeen(s, schedule[..|schedule| - 1], byLength, t); }
  }

  /** How a step may change write timestamps. */
  predicate Rises(s: State, s': State, a: Action) {
    && |s'.rows| == |s.rows|
    && forall r :: 0 <= r < |s.rows| ==>
         if Moves(s, a, r) then s.rows[r].word.wts < s'.rows[r].word.wts else s'.rows[r].word.wts == s.rows[r].word.wts
  }

  lemma SwapRises(s: State, t: nat, byLength: bool)
    requires Inv(s) && Enabled(s, Swap(t))
    ensures Rises(s, DoSwap(s, t, byLength), Swap(t))
  {
    var x, s' := s.txns[t], DoSwap(s, t, byLength);
    var q := x.phase.renewing;
    assert TxnOK(s, t);
    RenewedWts(x.rd[q].wts, x.cts);
  }

  lemma RenewedWts(wts: nat, cts: nat)
    requires wts <= cts
    ensures if cts - wts >= LEASES then Renewed(wts, cts).wts > wts else Renewed(wts, cts).wts == wts
  {
  }

  lemma StepRises(s: State, a: Action, byLength: bool)
    requires Inv(s) && Enabled(s, a)
    ensures Rises(s, Apply(s, a, byLength), a)
  {
    if a.Swap? {
      SwapRises(s, a.t, byLength);
    } else if a.WriteWord? {
      assert TxnOK(s, a.t);
      assert s.rows[a.r].word.Rts() < s.txns[a.t].cts;
    } else {
      TicTocTheorems.SameWords(s, a, byLength);
    }
  }

  lemma AccTells(s: State, s': State, a: Action, r: nat, wts: nat, moved: set<nat>, seen: map<nat, Value>)
    requires Rises(s, s', a) && r in seen && r < |s.rows| && wts <= s.rows[r].word.wts && (Stands(s, r, wts) <==> r !in moved)
    ensures Stands(s', r, wts) <==> r !in MovedAfter(moved, s, a, seen)
  {
  }

  /** The accesses after a step that adds none. */
  predicate SameAccs(x: Txn, y: Txn) {
    && (Live(y.phase) ==> Live(x.phase)) && y.rd == x.rd && y.wr.Keys == x.wr.Keys
    && forall r :: r in x.wr ==> y.wr[r].wts == x.wr[r].wts
  }

  predicate Met(s: State, x: Txn) {
    Live(x.phase) ==>
      && (forall r :: r in x.rd ==> r < |s.rows| && x.rd[r].wts <= s.rows[r].word.wts)
      && (forall r :: r in x.wr ==> r < |s.rows| && x.wr[r].wts <= s.rows[r].word.wts)
  }

  lemma StepTells(s: State, s': State, a: Action, x: Txn, y: Txn, c: Client, moved: set<nat>)
    requires Rises(s, s', a) && Serves(x, c) && Tells(s, x, moved) && SameAccs(x, y) && Met(s, x)
    ensures Tells(s', y, MovedAfter(moved, s, a, c.seen))
  {
    if Live(y.phase) {
      forall r | r in y.rd
        ensures Stands(s', r, y.rd[r].wts) <==> r !in MovedAfter(moved, s, a, c.seen)
      {
        AccTells(s, s', a, r, x.rd[r].wts, moved, c.seen);
      }
      forall r | r in y.wr
        ensures Stands(s', r, y.wr[r].wts) <==> r !in MovedAfter(moved, s, a, c.seen)
      {
        AccTells(s, s', a, r, x.wr[r].wts, moved, c.seen);
      }
    }
  }

  lemma KeepsAccs(s: State, a: Action, byLength: bool, t: nat)
    requires Enabled(s, a) && t < |s.txns| && !(a.t == t && a.Recheck?)
    ensures t < |Apply(s, a, byLength).txns| && SameAccs(s.txns[t], Apply(s, a, byLength).txns[t])
  {
    if a.t != t { OthersSame(s, a, byLength, t); } else if !OfBody(a) { OwnSame(s, a, byLength); }
  }

  lemma AllMet(s: State, t: nat)
    requires Inv(s) && t < |s.txns|
    ensures Met(s, s.txns[t])
  {
    assert TxnOK(s, t);
    var x := s.txns[t];
    if Live(x.phase) {
      assert forall r :: r in x.rd ==> LeaseOK(s, r, x.rd[r].wts, x.rd[r].rts, x.rd[r].data);
      assert forall r :: r in x.wr ==> LeaseOK(s, r, x.wr[r].wts, x.wr[r].rts, x.wr[r].data);
    }
  }

  /** An accepted access meets the write timestamp that stands. */
  lemma RecheckTells(s: State, t: nat, val: Value, c: Client, moved: set<nat>)
    requires Enabled(s, Recheck(t, val)) && Serves(s.txns[t], c) && Tells(s, s.txns[t], moved) && moved <= c.seen.Keys
    ensures Tells(DoRecheck(s, t, val), DoRecheck(s, t, val).txns[t], moved)
  {
    var s', x := DoRecheck(s, t, val), s.txns[t];
    var y, q := s'.txns[t], x.phase.row;
    assert q !in c.seen;
    assert forall r, wts :: Stands(s', r, wts) == Stands(s, r, wts);
    if Accepted(s, c.open) {
      forall r | r in y.rd
        ensures Stands(s', r, y.rd[r].wts) <==> r !in moved
      {
        assert r != q ==> r in x.rd && y.rd[r] == x.rd[r];
      }
      forall r | r in y.wr
        ensures Stands(s', r, y.wr[r].wts) <==> r !in moved
      {
        assert r != q ==> r in x.wr && y.wr[r] == x.wr[r];
      }
    }
  }

  lemma NothingMoves(m: State, a: Action, moved: set<nat>, seen: map<nat, Value>)
    requires !a.WriteWord? && !a.Swap?
    ensures MovedAfter(moved, m, a, seen) == moved
  {
  }

  lemma {:induction false} RunTells(s: State, schedule: seq<Action>, byLength: bool, t: nat)
    requires Init(s) && NoShortening(s, schedule, byLength) && Run(s, schedule, byLength).Some? && t < |s.txns|
    ensures |Run(s, schedule, byLength).value.txns| == |s.txns|
    ensures Tells(Run(s, schedule, byLength).value, Run(s, schedule, byLength).value.txns[t], Moved(s, schedule, byLength, t))
  {
    RunTxns(s, schedule, byLength);
    if schedule != [] {
      var n := |schedule| - 1;
      var m, a, c := Run(s, schedule[..n], byLength).value, schedule[n], ClientOf(s, schedule[..n], byLength, t);
      var moved := Moved(s, schedule[..n], byLength, t);
      RunTells(s, schedule[..n], byLength, t);
      RunServes(s, schedule[..n], byLength, t);
      if a.t == t && a.Recheck? {
        MovedSeen(s, schedule[..n], byLength, t);
        NothingMoves(m, a, moved, c.seen);
        RecheckTells(m, t, a.val, c, moved);
      } else {
        RunInv(s, schedule[..n], byLength);
        AllMet(m, t);
        StepRises(m, a, byLength);
        KeepsAccs(m, a, byLength, t);
        StepTells(m, Apply(m, a, byLength), a, m.txns[t], Apply(m, a, byLength).txns[t], c, moved);
      }
    }
  }

  /** After its lock is taken, a written row is refused if and only if its version has moved since the access. */
  lemma CheckExact(s: State, schedule: seq<Action>, byLength: bool, t: nat, r: nat)
    requires Init(s) && NoShortening(s, schedule, byLength) && Run(s, schedule, byLength).Some?
    requires Enabled(Run(s, schedule, byLength).value, Check(t, r))
    ensures var m := Run(s, schedule, byLength).value;
      Apply(m, Check(t, r), byLength) == SetTxn(m, t, m.txns[t].(phase :=
        if r in Moved(s, schedule, byLength, t) then Aborting else Locking(m.txns[t].phase.checked + {r})))
  {
    RunTxns(s, schedule, byLength);
    RunTells(s, schedule, byLength, t);
  }

  /**
   * A read row whose lease is too short is valid if its version stands and the lease has grown
   * enough meanwhile, is refused if not and the version has moved or the row is locked, and is
   * renewed otherwise.
   */
  lemma LookExact(s: State, schedule: seq<Action>, byLength: bool, t: nat, r: nat)
    requires Init(s) && NoShortening(s, schedule, byLength) && Run(s, schedule, byLength).Some?
    requires Enabled(Run(s, schedule, byLength).value, Look(t, r))
    ensures var m := Run(s, schedule, byLength).value;
      var x, row, moved := m.txns[t], m.rows[r], r in Moved(s, schedule, byLength, t);
      Apply(m, Look(t, r), byLength) == SetTxn(m, t, x.(phase :=
        if !moved && row.word.Rts() >= x.cts then Validating(x.phase.valid + {r})
        else if moved || row.lock != FREE then Aborting
        else Renewing(x.phase.valid, r, row.word)))
  {
    RunTxns(s, schedule, byLength);
    RunTells(s, schedule, byLength, t);
  }

  /**
   * The compare-and-swap brings the lease to the commit timestamp if and only if the row is free
   * and its word as it was; a transaction that loses the race is refused if and only if the
   * version has moved, the row is locked, or the lease needs a new base, passes if the exit test
   * finds the lease long enough, and tries again otherwise.
   */
  lemma SwapExact(s: State, schedule: seq<Action>, byLength: bool, t: nat)
    requires Init(s) && NoShortening(s, schedule, byLength) && Run(s, schedule, byLength).Some?
    requires Enabled(Run(s, schedule, byLength).value, Swap(t))
    ensures var m := Run(s, schedule, byLength).value;
      var x := m.txns[t];
      var r, f := x.phase.renewing, Apply(m, Swap(t), byLength);
      var moved, won := r in Moved(s, schedule, byLength, t), m.rows[r].lock == FREE && m.rows[r].word == x.phase.v;
      && r < |f.rows| && t < |f.txns|
      && (won ==> f.rows[r] == m.rows[r].(word := f.rows[r].word) && f.rows[r].word.Rts() == x.cts)
      && (won ==> f.txns[t].phase == Validating(x.phase.valid + {r}))
      && (!won ==> f.rows == m.rows)
      && (f.txns[t].phase.Aborting? <==> !won && (moved || m.rows[r].lock != FREE || x.cts - x.rd[r].wts >= LEASES))
      && (!won && !f.txns[t].phase.Aborting? ==>
            f.txns[t].phase == if LongEnough(byLength, x.rd[r].wts, x.cts, m.rows[r].word.len) then Validating(x.phase.valid + {r})
                               else Renewing(x.phase.valid, r, m.rows[r].word))
  {
    RunTxns(s, schedule, byLength);
    RunTells(s, schedule, byLength, t);
    RunInv(s, schedule, byLength);
    var m := Run(s, schedule, byLength).value;
    var x := m.txns[t];
    assert TxnOK(m, t);
    RenewedRts(x.rd[x.phase.renewing].wts, x.cts);
  }
}
