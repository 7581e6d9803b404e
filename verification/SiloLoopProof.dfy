/**
 * The loops of validate_silo() keep their bookkeeping in every run: num_locks tells exactly which
 * locks are held, every release is of a held lock, every exit leaves none, and the runs are
 * serializable because they are runs of the protocol.
 */
module SiloLoopProof {
  import opened Wrappers
  import opened Silo
  import opened SiloProof
  import opened SiloLoop

  // ----- one step

  /** A step changes locks between free and its own only. */
  ghost predicate OwnLocks(s: State, s': State, t: nat) {
    && |s'.rows| == |s.rows| && |s'.txns| == |s.txns|
    && (forall u :: 0 <= u < |s.txns| && u != t ==> s'.txns[u] == s.txns[u])
    && (forall r :: 0 <= r < |s.rows| && s'.rows[r].lock != s.rows[r].lock ==>
          (s.rows[r].lock == FREE || s.rows[r].lock == t) && (s'.rows[r].lock == FREE || s'.rows[r].lock == t))
  }

  lemma StepOwnLocks(s: State, a: Action)
    requires Enabled(s, a)
    ensures OwnLocks(s, Apply(s, a), a.t)
  {
  }

  lemma OtherLoop(c: Loops, c': Loops, t: nat, u: nat)
    requires |c.ctl| == |c.ws| == |c.s.txns| && u < |c.ctl| && u != t && LoopOK(c, u) && OwnLocks(c.s, c'.s, t)
    requires |c'.ctl| == |c'.ws| == |c.ctl| && c'.ctl[u] == c.ctl[u] && c'.ws[u] == c.ws[u]
    ensures LoopOK(c', u)
  {
    forall r | 0 <= r < |c'.s.rows|
      ensures c'.s.rows[r].lock == u <==> r in Held(c'.ctl[u], c'.ws[u])
    {
      assert c.s.rows[r].lock == u <==> r in Held(c.ctl[u], c.ws[u]);
    }
  }

  /** What a sequence holds around a position. */
  lemma Around(w: seq<nat>, k: nat, n: nat)
    requires Ascending(w) && k < n <= |w|
    ensures w[..k + 1] == w[..k] + [w[k]] && w[k..n] == [w[k]] + w[k + 1..n]
    ensures w[k] !in w[k + 1..n] && w[k] !in w[..k]
    ensures SetOf(w[..k + 1]) == SetOf(w[..k]) + {w[k]}
    ensures SetOf(w[k..n]) - {w[k]} == SetOf(w[k + 1..n])
  {
    assert forall r :: r in w[k + 1..n] ==> r in w[k..n];
    assert forall r :: r in w[..k] ==> r in w[..k + 1];
    assert w[k] in w[..k + 1];
  }

  lemma LockLoop(c: Loops, t: nat, preAbort: bool)
    requires LoopsInv(c) && CanStep(c, Lock(t))
    ensures LoopOK(Next(c, Lock(t), preAbort), t)
  {
    assert LoopOK(c, t);
    var p, w, c' := c.ctl[t], c.ws[t], Next(c, Lock(t), preAbort);
    Around(w, p.n, |w|);
    forall r | 0 <= r < |c'.s.rows|
      ensures c'.s.rows[r].lock == t <==> r in Held(c'.ctl[t], w)
    {
      assert c.s.rows[r].lock == t <==> r in w[..p.n];
    }
    assert w[..p.n + 1 - 1] == w[..p.n];
  }

  lemma CompareHolds(c: Loops, t: nat, preAbort: bool)
    requires CanStep(c, Compare(t)) && LoopOK(c, t)
    ensures HoldsOK(Next(c, Compare(t), preAbort), t)
  {
    var p, w, c' := c.ctl[t], c.ws[t], Next(c, Compare(t), preAbort);
    assert w[0..p.n] == w[..p.n];
    assert Held(c'.ctl[t], w) == Held(p, w) && c'.s.rows == c.s.rows;
  }

  lemma ComparePhase(c: Loops, t: nat, preAbort: bool)
    requires CanStep(c, Compare(t)) && LoopOK(c, t)
    ensures var c' := Next(c, Compare(t), preAbort); PlaceOK(c'.ctl[t], c.ws[t]) && PhaseOK(c'.ctl[t], c.ws[t], c'.s.txns[t].phase)
  {
    HeadSet(c.ws[t], c.ctl[t].n - 1);
  }

  lemma CompareLoop(c: Loops, t: nat, preAbort: bool)
    requires LoopsInv(c) && CanStep(c, Compare(t))
    ensures LoopOK(Next(c, Compare(t), preAbort), t)
  {
    assert LoopOK(c, t);
    CompareHolds(c, t, preAbort);
    ComparePhase(c, t, preAbort);
  }

  lemma FreeLoop(c: Loops, t: nat, preAbort: bool)
    requires LoopsInv(c) && CanStep(c, Free(t))
    ensures LoopOK(Next(c, Free(t), preAbort), t)
  {
    assert LoopOK(c, t);
    var p, w, c' := c.ctl[t], c.ws[t], Next(c, Free(t), preAbort);
    Around(w, p.k, p.n);
    forall r | 0 <= r < |c'.s.rows|
      ensures c'.s.rows[r].lock == t <==> r in w[p.k + 1..p.n]
    {
      assert c.s.rows[r].lock == t <==> r in w[p.k..p.n];
    }
  }

  lemma AroundTail(w: seq<nat>, i: nat)
    requires Ascending(w) && i < |w|
    ensures w[i] in w[i..] && w[i] !in w[i + 1..] && forall r :: r in w[i..] <==> r == w[i] || r in w[i + 1..]
  {
    assert w[i..] == [w[i]] + w[i + 1..];
  }

  lemma PutHolds(c: Loops, t: nat, preAbort: bool)
    requires CanStep(c, Put(t)) && LoopOK(c, t)
    ensures HoldsOK(Next(c, Put(t), preAbort), t)
  {
    var p, w, c' := c.ctl[t], c.ws[t], Next(c, Put(t), preAbort);
    AroundTail(w, p.i);
    assert Held(p, w) == w[p.i..] && Held(c'.ctl[t], w) == if p.part == 2 then w[p.i + 1..] else w[p.i..];
    forall r | 0 <= r < |c'.s.rows|
      ensures c'.s.rows[r].lock == t <==> r in Held(c'.ctl[t], w)
    {
      assert c.s.rows[r].lock == t <==> r in Held(p, w);
    }
  }

  lemma PutPhase(c: Loops, t: nat, preAbort: bool)
    requires CanStep(c, Put(t)) && LoopOK(c, t)
    ensures var c' := Next(c, Put(t), preAbort); PlaceOK(c'.ctl[t], c.ws[t]) && PhaseOK(c'.ctl[t], c.ws[t], c'.s.txns[t].phase)
  {
    HeadSet(c.ws[t], c.ctl[t].i);
  }

  lemma HeadSet(w: seq<nat>, i: nat)
    requires i < |w|
    ensures SetOf(w[..i + 1]) == SetOf(w[..i]) + {w[i]}
  {
    assert w[..i + 1] == w[..i] + [w[i]];
  }

  lemma PutLoop(c: Loops, t: nat, preAbort: bool)
    requires LoopsInv(c) && CanStep(c, Put(t))
    ensures LoopOK(Next(c, Put(t), preAbort), t)
  {
    assert LoopOK(c, t);
    PutHolds(c, t, preAbort);
    PutPhase(c, t, preAbort);
  }

  /** The steps that move on with the same locks. */
  lemma MoveLoop(c: Loops, b: Step, preAbort: bool)
    requires LoopsInv(c) && CanStep(c, b) && (b.Passed? || b.Failed? || b.Refused? || b.Complete? || b.Again? || b.End?)
    ensures LoopOK(Next(c, b, preAbort), b.t)
  {
    var t := b.t;
    assert LoopOK(c, t);
    var p, w, c' := c.ctl[t], c.ws[t], Next(c, b, preAbort);
    assert w[..0] == [] && w[..|w|] == w && SetOf([]) == {};
    if p.Try? {
      assert w[0..p.n] == w[..p.n];
    }
    assert forall r :: 0 <= r < |c.s.rows| ==> (c.s.rows[r].lock == t <==> r in Held(p, w));
    assert Held(c'.ctl[t], w) == Held(p, w);
  }

  lemma BodyLoop(c: Loops, b: Step, preAbort: bool)
    requires LoopsInv(c) && CanStep(c, b) && (b.Work? || b.Begin?)
    ensures LoopOK(Next(c, b, preAbort), Actor(b))
  {
    var t := Actor(b);
    assert LoopOK(c, t);
    var c' := Next(c, b, preAbort);
    assert SetOf([]) == {} && c'.ws[t][..0] == [];
    assert forall r :: 0 <= r < |c.s.rows| ==> c.s.rows[r].lock != t;
  }

  lemma ValidLoop(c: Loops, b: Step, preAbort: bool)
    requires LoopsInv(c) && CanStep(c, b) && (b.Read? || b.Decide?)
    ensures LoopOK(Next(c, b, preAbort), b.t)
  {
    var t := b.t;
    assert LoopOK(c, t);
    var w := c.ws[t];
    assert w[0..|w|] == w && w[0..] == w && w[..0] == [] && SetOf([]) == {};
    assert forall r :: 0 <= r < |c.s.rows| ==> (c.s.rows[r].lock == t <==> r in w);
  }

  lemma OwnLoop(c: Loops, b: Step, preAbort: bool)
    requires LoopsInv(c) && CanStep(c, b)
    ensures |Next(c, b, preAbort).s.txns| == |c.s.txns| && LoopOK(Next(c, b, preAbort), Actor(b))
  {
    Refines(c, b, preAbort);
    match b
    case Lock(t) => LockLoop(c, t, preAbort);
    case Compare(t) => CompareLoop(c, t, preAbort);
    case Free(t) => FreeLoop(c, t, preAbort);
    case Put(t) => PutLoop(c, t, preAbort);
    case Work(_) => BodyLoop(c, b, preAbort);
    case Begin(_, _) => BodyLoop(c, b, preAbort);
    case Read(_, _) => ValidLoop(c, b, preAbort);
    case Decide(_, _) => ValidLoop(c, b, preAbort);
    case _ => MoveLoop(c, b, preAbort);
  }

  /** The protocol's part of a step. */
  lemma StepInv(c: Loops, b: Step, preAbort: bool)
    requires LoopsInv(c) && CanStep(c, b)
    ensures Inv(Next(c, b, preAbort).s) && OwnLocks(c.s, Next(c, b, preAbort).s, Actor(b))
  {
    var m := Meaning(c, b);
    Refines(c, b, preAbort);
    if m.Some? {
      KeepInv(c.s, m.value);
      StepOwnLocks(c.s, m.value);
      MeaningActor(c, b);
    }
  }

  lemma MeaningActor(c: Loops, b: Step)
    requires CanStep(c, b) && Meaning(c, b).Some?
    ensures Meaning(c, b).value.t == Actor(b)
  {
  }

  lemma StepCtl(c: Loops, b: Step, preAbort: bool)
    requires CanStep(c, b)
    ensures var c' := Next(c, b, preAbort);
            && |c'.ctl| == |c.ctl| && |c'.ws| == |c.ws|
            && forall u :: 0 <= u < |c.ctl| && u != Actor(b) ==> c'.ctl[u] == c.ctl[u] && c'.ws[u] == c.ws[u]
  {
  }

  /** Every step keeps the bookkeeping of every transaction. */
  lemma KeepLoops(c: Loops, b: Step, preAbort: bool)
    requires LoopsInv(c) && CanStep(c, b)
    ensures LoopsInv(Next(c, b, preAbort))
  {
    var c' := Next(c, b, preAbort);
    StepInv(c, b, preAbort);
    StepCtl(c, b, preAbort);
    OwnLoop(c, b, preAbort);
    forall u | 0 <= u < |c'.ctl|
      ensures LoopOK(c', u)
    {
      assert LoopOK(c, u);
      if u != Actor(b) {
        OtherLoop(c, c', Actor(b), u);
      }
    }
  }

  // ----- whole runs

  predicate LoopsInit(c: Loops) {
    && Init(c.s) && |c.ctl| == |c.ws| == |c.s.txns|
    && (forall t :: 0 <= t < |c.ctl| ==> c.ctl[t] == Exec && c.ws[t] == [])
  }

  function LoopsRun(c: Loops, steps: seq<Step>, preAbort: bool): Option<Loops> {
    if steps == [] then Some(c)
    else
      match LoopsRun(c, steps[..|steps| - 1], preAbort)
      case None => None
      case Some(m) =>
        var b := steps[|steps| - 1];
        if CanStep(m, b) then Some(Next(m, b, preAbort)) else None
  }

  lemma {:induction false} RunLoops(c: Loops, steps: seq<Step>, preAbort: bool) returns (schedule: seq<Action>)
    requires LoopsInit(c) && LoopsRun(c, steps, preAbort).Some?
    ensures LoopsInv(LoopsRun(c, steps, preAbort).value)
    ensures Run(c.s, schedule) == Some(LoopsRun(c, steps, preAbort).value.s)
  {
    if steps == [] {
      InitInv(c.s);
      schedule := [];
    } else {
      var before := RunLoops(c, steps[..|steps| - 1], preAbort);
      var m, b := LoopsRun(c, steps[..|steps| - 1], preAbort).value, steps[|steps| - 1];
      KeepLoops(m, b, preAbort);
      Refines(m, b, preAbort);
      var a := Meaning(m, b);
      schedule := if a.Some? then before + [a.value] else before;
      if a.Some? {
        assert schedule[..|schedule| - 1] == before;
      }
    }
  }

  /** The loops as they run, in every interleaving, are serializable in the order of completed locks. */
  lemma LoopsSerializable(c: Loops, steps: seq<Step>, preAbort: bool)
    requires LoopsInit(c) && LoopsRun(c, steps, preAbort).Some?
    ensures Serializable(c.s.db, LoopsRun(c, steps, preAbort).value.s)
  {
    var schedule := RunLoops(c, steps, preAbort);
    SiloSerializable(c.s, schedule);
  }

  /** The assertion in release() never fires: whatever is released is locked, by the one that releases it. */
  lemma ReleaseAssertion(c: Loops, steps: seq<Step>, preAbort: bool, b: Step)
    requires LoopsInit(c) && LoopsRun(c, steps, preAbort).Some?
    requires var f := LoopsRun(c, steps, preAbort).value; CanStep(f, b) && (b.Free? || (b.Put? && f.ctl[b.t].part == 2))
    ensures var f := LoopsRun(c, steps, preAbort).value;
            f.s.rows[f.ws[b.t][if b.Free? then f.ctl[b.t].k else f.ctl[b.t].i]].lock == b.t
  {
    var schedule := RunLoops(c, steps, preAbort);
    ReleasesOwn(LoopsRun(c, steps, preAbort).value, b);
  }

  /**
   * num_locks is right: at every moment of every run a transaction holds exactly the locks of the
   * part of its sorted write set that its place tells; in particular none when it has left either
   * exit, and none before a new attempt.
   */
  lemma LocksAreCounted(c: Loops, steps: seq<Step>, preAbort: bool, t: nat)
    requires LoopsInit(c) && LoopsRun(c, steps, preAbort).Some? && t < |LoopsRun(c, steps, preAbort).value.ctl|
    ensures var f := LoopsRun(c, steps, preAbort).value;
            && |f.ctl| == |f.ws|
            && (forall r :: 0 <= r < |f.s.rows| ==> (f.s.rows[r].lock == t <==> r in Held(f.ctl[t], f.ws[t])))
            && (f.ctl[t].Done? || f.ctl[t].PreCheck? || f.ctl[t] == Try(0) ==> forall r :: 0 <= r < |f.s.rows| ==> f.s.rows[r].lock != t)
  {
    var schedule := RunLoops(c, steps, preAbort);
    assert LoopOK(LoopsRun(c, steps, preAbort).value, t);
  }

  /** The second validation loop never fails: the ids of locked rows stand. */
  lemma WriteSetValidates(c: Loops, steps: seq<Step>, preAbort: bool, t: nat, r: nat)
    requires LoopsInit(c) && LoopsRun(c, steps, preAbort).Some?
    requires var f := LoopsRun(c, steps, preAbort).value; t < |f.ctl| == |f.s.txns| && f.ctl[t].Validate? && r in f.s.txns[t].wr
    ensures var f := LoopsRun(c, steps, preAbort).value; r < |f.s.rows| && f.s.rows[r].tid == f.s.txns[t].wr[r].tid
  {
    var schedule := RunLoops(c, steps, preAbort);
    var f := LoopsRun(c, steps, preAbort).value;
    assert LoopOK(f, t) && TxnOK(f.s, t);
    assert Mine(f.s, t, r);
  }

  /** Both exits and the retry can always go on: a transaction past its decision reaches `Done` or a new attempt. */
  lemma ExitsMove(c: Loops, steps: seq<Step>, preAbort: bool, t: nat)
    requires LoopsInit(c) && LoopsRun(c, steps, preAbort).Some? && t < |LoopsRun(c, steps, preAbort).value.ctl|
    ensures var f := LoopsRun(c, steps, preAbort).value;
            && (f.ctl[t].Retry? ==> CanStep(f, Free(t)) || CanStep(f, Again(t)))
            && (f.ctl[t].Final? ==> CanStep(f, Free(t)) || CanStep(f, End(t)))
            && (f.ctl[t].Install? ==> CanStep(f, Put(t)) || CanStep(f, End(t)))
  {
    var schedule := RunLoops(c, steps, preAbort);
    GoesOn(LoopsRun(c, steps, preAbort).value, t);
  }

  lemma GoesOn(f: Loops, t: nat)
    requires LoopsInv(f) && t < |f.ctl|
    ensures f.ctl[t].Retry? ==> CanStep(f, Free(t)) || CanStep(f, Again(t))
    ensures f.ctl[t].Final? ==> CanStep(f, Free(t)) || CanStep(f, End(t))
    ensures f.ctl[t].Install? ==> CanStep(f, Put(t)) || CanStep(f, End(t))
  {
    assert LoopOK(f, t);
    var p := f.ctl[t];
    if (p.Retry? || p.Final?) && p.k < p.n {
      InWriteSet(f, t, p.k);
    } else if p.Install? && p.i < |f.ws[t]| {
      InWriteSet(f, t, p.i);
    }
  }

  /**
   * Before its decision too a transaction is never stuck: at a free row it can take the lock, and
   * at any row it can be refused and start over; with all locks it can go on to validation.
   */
  lemma AttemptsMove(c: Loops, steps: seq<Step>, preAbort: bool, t: nat)
    requires LoopsInit(c) && LoopsRun(c, steps, preAbort).Some? && t < |LoopsRun(c, steps, preAbort).value.ctl|
    ensures var f := LoopsRun(c, steps, preAbort).value;
            && |f.ctl| == |f.ws|
            && (f.ctl[t].PreCheck? ==> CanStep(f, Passed(t)) && CanStep(f, Failed(t)))
            && (f.ctl[t].Try? && f.ctl[t].n < |f.ws[t]| ==>
                  && CanStep(f, Refused(t)) && f.ws[t][f.ctl[t].n] < |f.s.rows|
                  && (f.s.rows[f.ws[t][f.ctl[t].n]].lock == FREE ==> CanStep(f, Lock(t))))
            && (f.ctl[t].Try? && f.ctl[t].n >= |f.ws[t]| ==> CanStep(f, Complete(t)))
            && (f.ctl[t].Got? ==> CanStep(f, Compare(t)))
  {
    var schedule := RunLoops(c, steps, preAbort);
    Attempts(LoopsRun(c, steps, preAbort).value, t);
  }

  lemma Attempts(f: Loops, t: nat)
    requires LoopsInv(f) && t < |f.ctl|
    ensures f.ctl[t].PreCheck? ==> CanStep(f, Passed(t)) && CanStep(f, Failed(t))
    ensures f.ctl[t].Try? && f.ctl[t].n < |f.ws[t]| ==>
              && CanStep(f, Refused(t)) && f.ws[t][f.ctl[t].n] < |f.s.rows|
              && (f.s.rows[f.ws[t][f.ctl[t].n]].lock == FREE ==> CanStep(f, Lock(t)))
    ensures f.ctl[t].Try? && f.ctl[t].n >= |f.ws[t]| ==> CanStep(f, Complete(t))
    ensures f.ctl[t].Got? ==> CanStep(f, Compare(t))
  {
    assert LoopOK(f, t);
    var p := f.ctl[t];
    if p.Try? && p.n < |f.ws[t]| {
      InWriteSet(f, t, p.n);
    } else if p.Got? {
      InWriteSet(f, t, p.n - 1);
    }
  }
}
