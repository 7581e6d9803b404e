/**
 * What per-row OCC keeps with one timestamp counter or two: latches, write sets and the order of
 * end timestamps. The assertion in write() and the freedom from latch deadlock rest on this alone.
 */
module OccLatches {
  import opened Wrappers
  import opened Occ

  predicate LatchHeld(s: State, r: nat)
    requires r < |s.rows|
  {
    var o := s.rows[r].latch;
    o == FREE || (0 <= o < |s.txns| && Accessed(s.txns[o], r) &&
                  (s.txns[o].phase.Writing? || s.txns[o].phase.Aborting? || (s.txns[o].phase.Latching? && r in s.txns[o].phase.held)))
  }

  predicate LatchesOK(s: State, t: nat)
    requires t < |s.txns|
  {
    var x := s.txns[t];
    && (forall r :: r in x.rd ==> r < |s.rows| && r !in x.wr)
    && (forall r :: r in x.wr ==> r < |s.rows|)
    && (x.phase.Idle? ==> x == FRESH)
    && (x.phase.Latching? ==>
          && (forall r :: r in x.phase.held ==> Accessed(x, r) && r < |s.rows| && s.rows[r].latch == t)
          && (forall p: nat, q: nat :: p in x.phase.held && Accessed(x, q) && q < p ==> q in x.phase.held))
    && (x.phase.Writing? ==>
          && x.end < EndClock(s)
          && (forall r :: r in x.phase.written ==> r in x.wr)
          && (forall r :: r in x.wr && r !in x.phase.written ==> s.rows[r].latch == t && s.rows[r].wts < x.end))
  }

  predicate Basic(s: State) {
    && (forall r :: 0 <= r < |s.rows| ==> LatchHeld(s, r) && s.rows[r].wts < EndClock(s))
    && (forall t :: 0 <= t < |s.txns| ==> LatchesOK(s, t))
  }

  /** Transactions other than the acting one, whose latched rows stay. */
  lemma OthersLatches(s: State, s': State, u: nat)
    requires u < |s.txns| == |s'.txns| && |s.rows| == |s'.rows| && EndClock(s) <= EndClock(s')
    requires s'.txns[u] == s.txns[u] && LatchesOK(s, u)
    requires forall r :: 0 <= r < |s.rows| && s.rows[r].latch == u ==> s'.rows[r] == s.rows[r]
    ensures LatchesOK(s', u)
  {
  }

  /** An action of `t` that changes at most row `r`, which is free or latched by `t`. */
  lemma BasicStep(s: State, t: nat, s': State, r: nat)
    requires Basic(s) && t < |s.txns| && |s'.txns| == |s.txns| && |s'.rows| == |s.rows| && EndClock(s) <= EndClock(s')
    requires forall u :: 0 <= u < |s.txns| && u != t ==> s'.txns[u] == s.txns[u]
    requires forall q :: 0 <= q < |s.rows| && q != r ==> s'.rows[q] == s.rows[q]
    requires r < |s.rows| ==> s.rows[r] == s'.rows[r] || s.rows[r].latch == FREE || s.rows[r].latch == t
    requires forall q :: 0 <= q < |s.rows| && (q == r || s.rows[q].latch == t) ==> LatchHeld(s', q) && s'.rows[q].wts < EndClock(s')
    requires LatchesOK(s', t)
    ensures Basic(s')
  {
    forall q | 0 <= q < |s'.rows|
      ensures LatchHeld(s', q) && s'.rows[q].wts < EndClock(s')
    {
      assert LatchHeld(s, q);
    }
    forall u | 0 <= u < |s'.txns|
      ensures LatchesOK(s', u)
    {
      assert LatchesOK(s, u);
      if u != t {
        OthersLatches(s, s', u);
      }
    }
  }

  lemma BasicLocal(s: State, a: Action)
    requires Basic(s) && Enabled(s, a) && (a.Begin? || a.Access? || a.Modify? || a.BeginLatching? || a.Abort?)
    ensures Basic(Apply(s, a))
  {
    var s' := Apply(s, a);
    assert LatchesOK(s, a.t);
    forall q | 0 <= q < |s.rows|
      ensures s.rows[q].latch != a.t
    {
      assert LatchHeld(s, q);
    }
    BasicStep(s, a.t, s', |s.rows|);
  }

  lemma RowLatches(s: State, a: Action)
    requires Enabled(s, a) && (a.Latch? || a.Write? || a.Release?) && LatchesOK(s, a.t) && LatchHeld(s, a.r)
    ensures LatchesOK(Apply(s, a), a.t)
  {
  }

  lemma BasicRow(s: State, a: Action)
    requires Basic(s) && Enabled(s, a) && (a.Latch? || a.Write? || a.Release?)
    ensures Basic(Apply(s, a))
  {
    var s' := Apply(s, a);
    assert LatchesOK(s, a.t) && LatchHeld(s, a.r);
    RowLatches(s, a);
    forall q | 0 <= q < |s.rows| && s.rows[q].latch == a.t
      ensures LatchHeld(s', q)
    {
      assert LatchHeld(s, q);
    }
    BasicStep(s, a.t, s', a.r);
  }

  lemma BasicEnd(s: State, t: nat)
    requires Basic(s) && Enabled(s, TakeEnd(t))
    ensures Basic(DoTakeEnd(s, t))
  {
    var s' := DoTakeEnd(s, t);
    assert LatchesOK(s, t);
    forall r | r in s.txns[t].wr
      ensures s.rows[r].latch == t && s.rows[r].wts < EndClock(s)
    {
      assert r in s.txns[t].phase.held && LatchHeld(s, r);
    }
    forall q | 0 <= q < |s.rows| && s.rows[q].latch == t
      ensures LatchHeld(s', q)
    {
      assert LatchHeld(s, q);
    }
    BasicStep(s, t, s', |s.rows|);
  }

  lemma {:induction false} RunBasic(s: State, schedule: seq<Action>)
    requires Init(s) && Run(s, schedule).Some?
    ensures Basic(Run(s, schedule).value)
  {
    if schedule != [] {
      RunBasic(s, schedule[..|schedule| - 1]);
      var m, a := Run(s, schedule[..|schedule| - 1]).value, schedule[|schedule| - 1];
      match a
      case TakeEnd(t) => BasicEnd(m, t);
      case Latch(_, _) => BasicRow(m, a);
      case Write(_, _) => BasicRow(m, a);
      case Release(_, _) => BasicRow(m, a);
      case _ => BasicLocal(m, a);
    }
  }

  /** The assertion in write(): the new timestamp is above the row's. */
  lemma WriteAssertion(s: State, schedule: seq<Action>, t: nat, r: nat)
    requires Init(s) && Run(s, schedule).Some? && Enabled(Run(s, schedule).value, Write(t, r))
    ensures var f := Run(s, schedule).value; f.txns[t].end > f.rows[r].wts && f.rows[r].latch == t
  {
    RunBasic(s, schedule);
    assert LatchesOK(Run(s, schedule).value, t);
  }

  // ----- latching in sorted order

  /** A transaction waits for a row above every row it has latched. */
  lemma HeldBelow(s: State, t: nat, q: nat, r: nat)
    requires Basic(s) && t < |s.txns| && q < |s.rows| && s.rows[q].latch == t && Next(s.txns[t], r)
    ensures q < r
  {
    assert LatchHeld(s, q) && LatchesOK(s, t);
    assert q in s.txns[t].phase.held;
  }

  predicate WaitsAt(s: State, t: nat, r: nat) {
    t < |s.txns| && r < |s.rows| && Next(s.txns[t], r)
  }

  predicate LatchedBy(s: State, r: nat, t: nat) {
    r < |s.rows| && s.rows[r].latch == t
  }

  /** A chain of waiting transactions climbs strictly in row order. */
  lemma {:induction false} ChainClimbs(s: State, ts: seq<nat>, rs: seq<nat>, k: nat)
    requires Basic(s) && |ts| == |rs| && 0 < k < |ts|
    requires forall i :: 0 <= i < |ts| ==> WaitsAt(s, ts[i], rs[i])
    requires forall i :: 0 <= i < k ==> LatchedBy(s, rs[i], ts[i + 1])
    ensures rs[0] < rs[k]
  {
    assert WaitsAt(s, ts[k - 1], rs[k - 1]) && WaitsAt(s, ts[k], rs[k]);
    HeldBelow(s, ts[k], rs[k - 1], rs[k]);
    if k > 1 {
      ChainClimbs(s, ts, rs, k - 1);
    }
  }

  lemma NoCircle(s: State, ts: seq<nat>, rs: seq<nat>)
    requires Basic(s) && |ts| == |rs| > 0
    requires forall i :: 0 <= i < |ts| ==> WaitsAt(s, ts[i], rs[i])
    requires forall i :: 0 <= i < |ts| - 1 ==> LatchedBy(s, rs[i], ts[i + 1])
    ensures !LatchedBy(s, rs[|rs| - 1], ts[0])
  {
    var n := |ts| - 1;
    assert WaitsAt(s, ts[0], rs[0]) && WaitsAt(s, ts[n], rs[n]);
    if n > 0 {
      ChainClimbs(s, ts, rs, n);
    }
    if LatchedBy(s, rs[n], ts[0]) {
      HeldBelow(s, ts[0], rs[n], rs[0]);
    }
  }

  /** No set of transactions can wait for each other's latches in a circle. */
  lemma NoLatchDeadlock(s: State, schedule: seq<Action>, ts: seq<nat>, rs: seq<nat>)
    requires Init(s) && Run(s, schedule).Some? && |ts| == |rs| > 0
    requires forall i :: 0 <= i < |ts| ==> WaitsAt(Run(s, schedule).value, ts[i], rs[i])
    ensures exists i :: 0 <= i < |ts| && !LatchedBy(Run(s, schedule).value, rs[i], ts[if i + 1 < |ts| then i + 1 else 0])
  {
    RunBasic(s, schedule);
    SomeoneElse(Run(s, schedule).value, ts, rs);
  }

  lemma SomeoneElse(f: State, ts: seq<nat>, rs: seq<nat>)
    requires Basic(f) && |ts| == |rs| > 0 && forall i :: 0 <= i < |ts| ==> WaitsAt(f, ts[i], rs[i])
    ensures exists i :: 0 <= i < |ts| && !LatchedBy(f, rs[i], ts[if i + 1 < |ts| then i + 1 else 0])
  {
    var n := |ts| - 1;
    if forall i :: 0 <= i < n ==> LatchedBy(f, rs[i], ts[i + 1]) {
      NoCircle(f, ts, rs);
      assert !LatchedBy(f, rs[n], ts[if n + 1 < |ts| then n + 1 else 0]);
    } else {
      var i :| 0 <= i < n && !LatchedBy(f, rs[i], ts[i + 1]);
      assert !LatchedBy(f, rs[i], ts[if i + 1 < |ts| then i + 1 else 0]);
    }
  }
}
