/**
 * What TicToc guarantees over whole runs, and the one test of try_renew() on which it depends.
 */
module TicTocTheorems {
  import opened Wrappers
  import opened Serial
  import opened TicToc
  import opened TicTocInvariant
  import opened TicTocSteps

  /** No compare-and-swap of the run replaces a lease by a shorter one. */
  predicate NoShortening(s: State, schedule: seq<Action>, byLength: bool) {
    if schedule == [] then true
    else
      var before := schedule[..|schedule| - 1];
      && NoShortening(s, before, byLength)
      && (Run(s, before, byLength).Some? ==> !Shortens(Run(s, before, byLength).value, schedule[|schedule| - 1]))
  }

  lemma {:induction false} RunInv(s: State, schedule: seq<Action>, byLength: bool)
    requires Init(s) && NoShortening(s, schedule, byLength) && Run(s, schedule, byLength).Some?
    ensures Inv(Run(s, schedule, byLength).value)
    ensures Run(s, schedule, byLength).value.db == s.db
  {
    if schedule == [] {
      InitInv(s);
    } else {
      var before := schedule[..|schedule| - 1];
      RunInv(s, before, byLength);
      KeepInv(Run(s, before, byLength).value, schedule[|schedule| - 1], byLength);
    }
  }

  // ----- comparing lengths never shortens a lease

  /** A pending compare-and-swap expects a lease no longer than the one it wants. */
  predicate Lengths(s: State) {
    forall t :: 0 <= t < |s.txns| && s.txns[t].phase.Renewing? && s.txns[t].phase.renewing in s.txns[t].rd ==>
      s.txns[t].phase.v.len <= s.txns[t].cts - s.txns[t].rd[s.txns[t].phase.renewing].wts
  }

  lemma KeepLengths(s: State, a: Action)
    requires Lengths(s) && Enabled(s, a)
    ensures Lengths(Apply(s, a, true)) && !Shortens(s, a)
  {
    ApplyTxns(s, a, true);
    if a.Look? || a.Swap? {
      assert Lengths(s);
    } else {
      NotRenewing(s, a, true);
    }
  }

  /** An action changes the transaction that takes it, and no other. */
  lemma ApplyTxns(s: State, a: Action, byLength: bool)
    requires Enabled(s, a)
    ensures var s' := Apply(s, a, byLength);
            |s'.txns| == |s.txns| && forall t :: 0 <= t < |s.txns| && t != a.t ==> s'.txns[t] == s.txns[t]
  {
  }

  lemma NotRenewing(s: State, a: Action, byLength: bool)
    requires Enabled(s, a) && !a.Look? && !a.Swap?
    ensures !Apply(s, a, byLength).txns[a.t].phase.Renewing?
  {
  }

  lemma {:induction false} RunLengths(s: State, schedule: seq<Action>)
    requires Init(s)
    ensures NoShortening(s, schedule, true)
    ensures Run(s, schedule, true).Some? ==> Lengths(Run(s, schedule, true).value)
  {
    if schedule != [] {
      var before := schedule[..|schedule| - 1];
      RunLengths(s, before);
      if Run(s, before, true).Some? {
        var m, a := Run(s, before, true).value, schedule[|schedule| - 1];
        if Enabled(m, a) {
          KeepLengths(m, a);
        }
      }
    }
  }

  // ----- serializability

  /**
   * The outcome of a run: executing the committed transactions one after the other, in the
   * order of their commit timestamps (ties in commit order), reads what they read; and when
   * every lock is released it leaves the table that the rows hold.
   */
  ghost predicate Serializable(db: seq<Value>, s: State) {
    && |db| == |s.rows|
    && Sorted(s.hist) && HistoryOK(s)
    && Replay(db, s.hist).Some?
    && ((forall r :: 0 <= r < |s.rows| ==> s.rows[r].lock == FREE) ==>
          |Replay(db, s.hist).value| == |s.rows| &&
          forall r :: 0 <= r < |s.rows| ==> s.rows[r].data == Replay(db, s.hist).value[r])
  }

  lemma InvSerializable(s: State)
    requires Inv(s)
    ensures Serializable(s.db, s)
  {
    ConsistentIffReplay(s.db, s.hist);
    if forall r :: 0 <= r < |s.rows| ==> s.rows[r].lock == FREE {
      forall r | 0 <= r < |s.rows|
        ensures s.rows[r].data == Replay(s.db, s.hist).value[r]
      {
        assert RowOK(s, r);
        var rts := s.rows[r].word.Rts();
        SettledRow(s, r, rts);
        forall i | 0 <= i < |s.hist| && r in s.hist[i].writeSet
          ensures s.hist[i].ts <= rts
        {
          assert Accesses(s.hist[i], r);
        }
        AtFinal(s.hist, s.db[r], r, rts);
      }
    }
  }

  /** Every interleaving of TicToc with the length comparison is serializable in commit-timestamp order. */
  lemma TicTocSerializable(s: State, schedule: seq<Action>)
    requires Init(s) && Run(s, schedule, true).Some?
    ensures Serializable(s.db, Run(s, schedule, true).value)
  {
    RunLengths(s, schedule);
    RunInv(s, schedule, true);
    InvSerializable(Run(s, schedule, true).value);
  }

  /** So is every run of the code as written in which no compare-and-swap shortens a lease. */
  lemma AsWrittenSerializable(s: State, schedule: seq<Action>)
    requires Init(s) && Run(s, schedule, false).Some? && NoShortening(s, schedule, false)
    ensures Serializable(s.db, Run(s, schedule, false).value)
  {
    RunInv(s, schedule, false);
    InvSerializable(Run(s, schedule, false).value);
  }

  // ----- leases

  /** No row's lease ends earlier after the action than before it. */
  predicate LeasesGrow(s: State, s': State) {
    |s.rows| == |s'.rows| && forall r :: 0 <= r < |s.rows| ==> s.rows[r].word.Rts() <= s'.rows[r].word.Rts()
  }

  /** The failing test is exactly what separates the runs whose leases only grow from the others. */
  lemma LeasesGrowIff(s: State, a: Action, byLength: bool)
    requires Inv(s) && Enabled(s, a)
    ensures LeasesGrow(s, Apply(s, a, byLength)) <==> !Shortens(s, a)
  {
    assert TxnOK(s, a.t);
    var s' := Apply(s, a, byLength);
    if a.Swap? {
      var x := s.txns[a.t];
      var r := x.phase.renewing;
      RenewedRts(x.rd[r].wts, x.cts);
      if Shortens(s, a) {
        assert s'.rows[r].word.Rts() < s.rows[r].word.Rts();
      }
    } else if a.WriteWord? {
      assert s.rows[a.r].word.Rts() < s.txns[a.t].cts;
    }
  }

  lemma WtsStep(s: State, a: Action, byLength: bool, r: nat)
    requires Inv(s) && Enabled(s, a) && r < |s.rows|
    ensures var s' := Apply(s, a, byLength);
            && |s'.rows| == |s.rows|
            && (if a.WriteWord? && a.r == r then s.rows[r].word.wts < s'.rows[r].word.wts else s.rows[r].word.wts <= s'.rows[r].word.wts)
  {
    assert TxnOK(s, a.t);
    if a.WriteWord? {
      assert s.rows[a.r].word.Rts() < s.txns[a.t].cts;
    } else if !a.Swap? {
      SameWords(s, a, byLength);
    }
  }

  lemma {:induction false} RunRows(s: State, schedule: seq<Action>, byLength: bool)
    requires Run(s, schedule, byLength).Some?
    ensures |Run(s, schedule, byLength).value.rows| == |s.rows|
  {
    if schedule != [] {
      RunRows(s, schedule[..|schedule| - 1], byLength);
      StepRows(Run(s, schedule[..|schedule| - 1], byLength).value, schedule[|schedule| - 1], byLength);
    }
  }

  lemma StepRows(s: State, a: Action, byLength: bool)
    requires Enabled(s, a)
    ensures |Apply(s, a, byLength).rows| == |s.rows|
  {
  }

  /** A row's write timestamp never falls, and every installed version raises it. */
  lemma WtsIncreases(s: State, schedule: seq<Action>, byLength: bool, a: Action, r: nat)
    requires Init(s) && NoShortening(s, schedule, byLength) && Run(s, schedule, byLength).Some?
    requires Enabled(Run(s, schedule, byLength).value, a) && r < |s.rows|
    ensures |Run(s, schedule, byLength).value.rows| == |s.rows|
    ensures var f := Run(s, schedule, byLength).value;
            var g := Apply(f, a, byLength);
            && |g.rows| == |s.rows|
            && (if a.WriteWord? && a.r == r then f.rows[r].word.wts < g.rows[r].word.wts else f.rows[r].word.wts <= g.rows[r].word.wts)
  {
    RunInv(s, schedule, byLength);
    RunRows(s, schedule, byLength);
    WtsStep(Run(s, schedule, byLength).value, a, byLength, r);
  }

  /** Along a whole run: every step lets leases grow. */
  predicate AllLeasesGrow(s: State, schedule: seq<Action>, byLength: bool) {
    if schedule == [] then true
    else
      var before := schedule[..|schedule| - 1];
      && AllLeasesGrow(s, before, byLength)
      && (Run(s, schedule, byLength).Some? ==>
            LeasesGrow(Run(s, before, byLength).value, Run(s, schedule, byLength).value))
  }

  /** A run keeps all leases exactly when none of its compare-and-swaps meets a longer lease. */
  lemma {:induction false} AllLeasesGrowIff(s: State, schedule: seq<Action>, byLength: bool)
    requires Init(s) && Run(s, schedule, byLength).Some?
    ensures AllLeasesGrow(s, schedule, byLength) <==> NoShortening(s, schedule, byLength)
  {
    if schedule != [] {
      var before, a := schedule[..|schedule| - 1], schedule[|schedule| - 1];
      AllLeasesGrowIff(s, before, byLength);
      if NoShortening(s, before, byLength) {
        RunInv(s, before, byLength);
        LeasesGrowIff(Run(s, before, byLength).value, a, byLength);
      }
    }
  }

  /** Lease lengths always fit the 15 bits of the word. */
  predicate Fits(s: State) {
    forall r :: 0 <= r < |s.rows| ==> s.rows[r].word.len < LEASES
  }

  lemma {:induction false} RunFits(s: State, schedule: seq<Action>, byLength: bool)
    requires Init(s) && Run(s, schedule, byLength).Some?
    ensures Fits(Run(s, schedule, byLength).value)
  {
    if schedule != [] {
      RunFits(s, schedule[..|schedule| - 1], byLength);
      StepFits(Run(s, schedule[..|schedule| - 1], byLength).value, schedule[|schedule| - 1], byLength);
    }
  }

  lemma StepFits(s: State, a: Action, byLength: bool)
    requires Fits(s) && Enabled(s, a)
    ensures Fits(Apply(s, a, byLength))
  {
    var s' := Apply(s, a, byLength);
    if !a.Swap? && !a.WriteWord? {
      SameWords(s, a, byLength);
    }
  }

  /** Only try_renew() and write_data() change a word. */
  lemma SameWords(s: State, a: Action, byLength: bool)
    requires Enabled(s, a) && !a.Swap? && !a.WriteWord?
    ensures var s' := Apply(s, a, byLength);
            |s'.rows| == |s.rows| && forall r :: 0 <= r < |s.rows| ==> s'.rows[r].word == s.rows[r].word
  {
  }
}
