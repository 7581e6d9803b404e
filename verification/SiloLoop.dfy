/**
 * validate_silo() as its loops run (trusted/concurrency_control/silo.cpp:56-151): the sorted
 * write set, num_locks, the retry after a failed try_lock(), the checks under _pre_abort, and the
 * loops that release or install. Every step is a step of the protocol in module Silo or leaves it
 * as it is; a release is carried out whether or not the lock is held, so that the assertion in
 * release() is something to prove.
 */
module SiloLoop {
  import opened Wrappers
  import opened Silo
  import opened SiloProof

  /** Where a transaction is; `n` is num_locks. */
  datatype Ctl =
    | Exec
    | PreCheck                      // under _pre_abort, before locking: num_locks == 0
    | Try(n: nat)                   // about to lock write_set[n]
    | Got(n: nat)                   // write_set[n - 1] locked and counted, its id to be compared
    | Retry(k: nat, n: nat)         // a lock was refused: k of the n locks released
    | Validate                      // all locks held
    | Install(i: nat, part: nat)    // committed: data, word and lock of write_set[i] in turn
    | Final(k: nat, n: nat)         // aborting: k of the n locks released
    | Done

  /** The protocol's state, and each transaction's place and sorted write set. */
  datatype Loops = Loops(s: State, ctl: seq<Ctl>, ws: seq<seq<nat>>)

  datatype Step =
    | Work(a: Action)                 // a step of the transaction's body
    | Begin(t: nat, order: seq<nat>)
    | Passed(t: nat)                  // the checks under _pre_abort found nothing
    | Failed(t: nat)                  // they found a changed id
    | Lock(t: nat)
    | Refused(t: nat)                 // try_lock() failed
    | Compare(t: nat)
    | Complete(t: nat)
    | Free(t: nat)                    // release() in the retry or on the abort path
    | Again(t: nat)
    | Read(t: nat, r: nat)            // validate a row of the read set
    | Decide(t: nat, maxTid: nat)
    | Put(t: nat)                     // one part of the install loop
    | End(t: nat)

  predicate Ascending(s: seq<nat>) {
    forall i, j :: 0 <= i < j < |s| ==> s[i] < s[j]
  }

  function SetOf(s: seq<nat>): set<nat> {
    set r | r in s
  }

  function Actor(b: Step): nat {
    match b
    case Work(a) => a.t
    case _ => b.t
  }

  predicate BodyAction(a: Action) {
    a.Peek? || a.CopyRow? || a.Recheck? || a.Modify?
  }

  predicate CanStep(c: Loops, b: Step) {
    && Actor(b) < |c.ctl| == |c.ws| == |c.s.txns|
    && var t := Actor(b);
       var p, w := c.ctl[t], c.ws[t];
       match b
       case Work(a) => p.Exec? && BodyAction(a) && Enabled(c.s, a)
       case Begin(_, order) => p.Exec? && Enabled(c.s, BeginLocking(t)) && Ascending(order) && SetOf(order) == c.s.txns[t].wr.Keys
       case Passed(_) => p.PreCheck?
       case Failed(_) => p.PreCheck?
       case Lock(_) => p.Try? && p.n < |w| && w[p.n] < |c.s.rows| && c.s.rows[w[p.n]].lock == FREE
       case Refused(_) => p.Try? && p.n < |w|
       case Compare(_) => p.Got? && 0 < p.n <= |w| && w[p.n - 1] < |c.s.rows| && w[p.n - 1] in c.s.txns[t].wr
       case Complete(_) => p.Try? && p.n == |w|
       case Free(_) => (p.Retry? || p.Final?) && p.k < p.n <= |w| && w[p.k] < |c.s.rows|
       case Again(_) => p.Retry? && p.k == p.n
       case Read(_, r) => p.Validate? && Enabled(c.s, Silo.Validate(t, r))
       case Decide(_, m) => p.Validate? && Enabled(c.s, Commit(t, m))
       case Put(_) => p.Install? && p.i < |w| && p.part < 3 && w[p.i] < |c.s.rows| && w[p.i] in c.s.txns[t].wr
           && c.s.txns[t].phase.Installing?
       case End(_) => (p.Install? && p.i == |w|) || (p.Final? && p.k == p.n)
  }

  /** release(): clears the lock bit, whoever set it. */
  function FreeRow(s: State, t: nat, r: nat): State
    requires t < |s.txns| && r < |s.rows|
  {
    var x := s.txns[t];
    SetTxn(SetRow(s, r, s.rows[r].(lock := FREE)), t, if x.phase.Locking? then x.(phase := Locking(x.phase.checked - {r})) else x)
  }

  function PutPart(s: State, t: nat, r: nat, part: nat): State
    requires t < |s.txns| && r < |s.rows| && r in s.txns[t].wr && s.txns[t].phase.Installing?
  {
    var x := s.txns[t];
    if part == 0 then SetTxn(SetRow(s, r, s.rows[r].(data := x.wr[r].val)), t,
        x.(phase := Installing(x.phase.written + {r}, x.phase.worded)))
    else if part == 1 then SetTxn(SetRow(s, r, s.rows[r].(tid := x.cur)), t, x.(phase := Installing(x.phase.written, x.phase.worded + {r})))
    else SetRow(s, r, s.rows[r].(lock := FREE))
  }

  function MoveTo(c: Loops, t: nat, s: State, p: Ctl): Loops
    requires t < |c.ctl|
  {
    c.(s := s, ctl := c.ctl[t := p])
  }

  function SetPhase(s: State, t: nat, p: Phase): State
    requires t < |s.txns|
  {
    SetTxn(s, t, s.txns[t].(phase := p))
  }

  function DoCompare(c: Loops, t: nat): Loops
    requires CanStep(c, Compare(t))
  {
    var n, x := c.ctl[t].n, c.s.txns[t];
    var r := c.ws[t][n - 1];
    if c.s.rows[r].tid == x.wr[r].tid then
      MoveTo(c, t, SetPhase(c.s, t, Locking((if x.phase.Locking? then x.phase.checked else {}) + {r})), Try(n))
    else MoveTo(c, t, SetPhase(c.s, t, Aborting), Final(0, n))
  }

  function Next(c: Loops, b: Step, preAbort: bool): Loops
    requires CanStep(c, b)
  {
    var t := Actor(b);
    var p, w := c.ctl[t], c.ws[t];
    match b
    case Work(a) => MoveTo(c, t, Apply(c.s, a), Exec)
    case Begin(_, order) => MoveTo(c, t, Apply(c.s, BeginLocking(t)), if preAbort then PreCheck else Try(0)).(ws := c.ws[t := order])
    case Passed(_) => MoveTo(c, t, c.s, Try(0))
    case Failed(_) => MoveTo(c, t, SetPhase(c.s, t, Aborting), Final(0, 0))
    case Lock(_) => MoveTo(c, t, SetRow(c.s, w[p.n], c.s.rows[w[p.n]].(lock := t)), Got(p.n + 1))
    case Refused(_) => MoveTo(c, t, c.s, Retry(0, p.n))
    case Compare(_) => DoCompare(c, t)
    case Complete(_) => MoveTo(c, t, SetTxn(c.s, t,
        c.s.txns[t].(stamp := c.s.clock, phase := Validating({}))).(clock := c.s.clock + 1), Ctl.Validate)
    case Free(_) => MoveTo(c, t, FreeRow(c.s, t, w[p.k]), p.(k := p.k + 1))
    case Again(_) => MoveTo(c, t, c.s, if preAbort then PreCheck else Try(0))
    case Read(_, r) =>
      var s := DoValidate(c.s, t, r);
      MoveTo(c, t, s, if s.txns[t].phase.Validating? then Ctl.Validate else Final(0, |w|))
    case Decide(_, m) => MoveTo(c, t, DoCommit(c.s, t, m), Install(0, 0))
    case Put(_) => MoveTo(c, t, PutPart(c.s, t, w[p.i], p.part), if p.part == 2 then Install(p.i + 1, 0) else Install(p.i, p.part + 1))
    case End(_) => MoveTo(c, t, c.s, Done)
  }

  // ----- num_locks tells exactly which locks are held

  /** The part of the write set that is locked. */
  function Held(p: Ctl, w: seq<nat>): seq<nat> {
    match p
    case Try(n) => if n <= |w| then w[..n] else []
    case Got(n) => if n <= |w| then w[..n] else []
    case Retry(k, n) => if k <= n <= |w| then w[k..n] else []
    case Final(k, n) => if k <= n <= |w| then w[k..n] else []
    case Validate => w
    case Install(i, _) => if i <= |w| then w[i..] else []
    case _ => []
  }

  predicate PlaceOK(p: Ctl, w: seq<nat>) {
    match p
    case Try(n) => n <= |w|
    case Got(n) => 0 < n <= |w|
    case Retry(k, n) => k <= n <= |w|
    case Final(k, n) => k <= n <= |w|
    case Install(i, part) => i <= |w| && part < 3 && (i == |w| ==> part == 0)
    case _ => true
  }

  /** The protocol's view of the same place. */
  predicate PhaseOK(p: Ctl, w: seq<nat>, ph: Phase) {
    match p
    case Exec => ph.Running? || ph.Peeked? || ph.Copied?
    case PreCheck => ph == Locking({})
    case Try(n) => n <= |w| && ph == Locking(SetOf(w[..n]))
    case Got(n) => 0 < n <= |w| && ph == Locking(SetOf(w[..n - 1]))
    case Retry(k, n) => k <= n <= |w| && ph == Locking(SetOf(w[k..n]))
    case Validate => ph.Validating?
    case Install(i, part) =>
      && i <= |w| && (part > 0 ==> i < |w|)
      && ph == Installing(SetOf(w[..if part > 0 then i + 1 else i]), SetOf(w[..if part > 1 then i + 1 else i]))
    case Final(_, _) => ph == Aborting
    case Done => ph == Aborting || ph.Installing?
  }

  /** `t` holds exactly the locks that its place tells. */
  predicate HoldsOK(c: Loops, t: nat)
    requires t < |c.ctl| == |c.ws|
  {
    forall r :: 0 <= r < |c.s.rows| ==> (c.s.rows[r].lock == t <==> r in Held(c.ctl[t], c.ws[t]))
  }

  predicate LoopOK(c: Loops, t: nat)
    requires t < |c.ctl| == |c.ws| == |c.s.txns|
  {
    && Ascending(c.ws[t]) && PlaceOK(c.ctl[t], c.ws[t]) && PhaseOK(c.ctl[t], c.ws[t], c.s.txns[t].phase) && HoldsOK(c, t)
    && (!c.ctl[t].Exec? ==> SetOf(c.ws[t]) == c.s.txns[t].wr.Keys)
  }

  ghost predicate LoopsInv(c: Loops) {
    && Inv(c.s) && |c.ctl| == |c.ws| == |c.s.txns|
    && (forall t :: 0 <= t < |c.ctl| ==> LoopOK(c, t))
  }

  /** The step of the protocol that a step of the loops is, if any. */
  function Meaning(c: Loops, b: Step): Option<Action>
    requires CanStep(c, b)
  {
    var t := Actor(b);
    var p, w := c.ctl[t], c.ws[t];
    match b
    case Work(a) => Some(a)
    case Begin(_, _) => Some(BeginLocking(t))
    case Passed(_) => None
    case Failed(_) => Some(Abort(t))
    case Lock(_) => Some(TryLock(t, w[p.n]))
    case Refused(_) => None
    case Compare(_) => Some(Check(t, w[p.n - 1]))
    case Complete(_) => Some(LocksComplete(t))
    case Free(_) => Some(Unlock(t, w[p.k]))
    case Again(_) => None
    case Read(_, r) => Some(Silo.Validate(t, r))
    case Decide(_, m) => Some(Commit(t, m))
    case Put(_) => Some(if p.part == 0 then WriteData(t, w[p.i]) else if p.part == 1 then WriteWord(t, w[p.i]) else Release(t, w[p.i]))
    case End(_) => None
  }

  lemma NotBefore(w: seq<nat>, i: nat)
    requires Ascending(w) && i < |w|
    ensures w[i] !in w[..i] && w[i] !in w[i + 1..]
  {
  }

  /** A release is only ever of a lock the transaction holds: the assertion in release() never fires. */
  lemma ReleasesOwn(c: Loops, b: Step)
    requires LoopsInv(c) && CanStep(c, b) && (b.Free? || (b.Put? && c.ctl[b.t].part == 2))
    ensures var p, w := c.ctl[b.t], c.ws[b.t];
            c.s.rows[w[if b.Free? then p.k else p.i]].lock == b.t
  {
    var t := b.t;
    assert LoopOK(c, t);
    var p, w := c.ctl[t], c.ws[t];
    if b.Free? {
      assert w[p.k] == w[p.k..p.n][0];
    } else {
      assert w[p.i] == w[p.i..][0];
    }
  }

  /** `c` takes the step that `b` means. */
  predicate Follows(c: Loops, b: Step, preAbort: bool)
    requires CanStep(c, b)
  {
    var m, c' := Meaning(c, b), Next(c, b, preAbort);
    if m.Some? then Enabled(c.s, m.value) && c'.s == Apply(c.s, m.value) else c'.s == c.s
  }

  lemma InWriteSet(c: Loops, t: nat, i: nat)
    requires LoopsInv(c) && t < |c.ctl| && !c.ctl[t].Exec? && i < |c.ws[t]|
    ensures c.ws[t][i] in c.s.txns[t].wr && c.ws[t][i] < |c.s.rows|
  {
    assert LoopOK(c, t) && TxnOK(c.s, t);
    assert c.ws[t][i] in SetOf(c.ws[t]);
  }

  lemma RefinesLock(c: Loops, b: Step, preAbort: bool)
    requires LoopsInv(c) && CanStep(c, b) && b.Lock?
    ensures Follows(c, b, preAbort)
  {
    assert LoopOK(c, b.t);
    InWriteSet(c, b.t, c.ctl[b.t].n);
  }

  lemma RefinesCompare(c: Loops, b: Step, preAbort: bool)
    requires LoopsInv(c) && CanStep(c, b) && b.Compare?
    ensures Follows(c, b, preAbort)
  {
    assert LoopOK(c, b.t);
    var p, w := c.ctl[b.t], c.ws[b.t];
    InWriteSet(c, b.t, p.n - 1);
    assert w[p.n - 1] == w[..p.n][p.n - 1];
  }

  lemma RefinesComplete(c: Loops, b: Step, preAbort: bool)
    requires LoopsInv(c) && CanStep(c, b) && b.Complete?
    ensures Follows(c, b, preAbort)
  {
    assert LoopOK(c, b.t);
    assert c.ws[b.t][..c.ctl[b.t].n] == c.ws[b.t];
  }

  lemma RefinesFree(c: Loops, b: Step, preAbort: bool)
    requires LoopsInv(c) && CanStep(c, b) && b.Free?
    ensures Follows(c, b, preAbort)
  {
    assert LoopOK(c, b.t);
    ReleasesOwn(c, b);
  }

  /** What has been installed so far tells which part is next. */
  lemma PutEnabled(w: seq<nat>, i: nat, part: nat, ph: Phase)
    requires Ascending(w) && i < |w| && part < 3 && PhaseOK(Install(i, part), w, ph)
    ensures part == 0 ==> w[i] !in ph.written
    ensures part == 1 ==> w[i] in ph.written && w[i] !in ph.worded
    ensures part == 2 ==> w[i] in ph.worded
  {
    NotBefore(w, i);
    assert w[i] == w[..i + 1][i];
  }

  lemma RefinesPut(c: Loops, b: Step, preAbort: bool)
    requires LoopsInv(c) && CanStep(c, b) && b.Put?
    ensures Follows(c, b, preAbort)
  {
    var t := b.t;
    assert LoopOK(c, t);
    PutEnabled(c.ws[t], c.ctl[t].i, c.ctl[t].part, c.s.txns[t].phase);
    if c.ctl[t].part == 2 {
      ReleasesOwn(c, b);
    }
  }

  lemma RefinesRest(c: Loops, b: Step, preAbort: bool)
    requires LoopsInv(c) && CanStep(c, b) && !(b.Lock? || b.Compare? || b.Complete? || b.Free? || b.Put?)
    ensures Follows(c, b, preAbort)
  {
    assert LoopOK(c, Actor(b));
  }

  /** Every step of the loops is a step of the protocol, or none. */
  lemma Refines(c: Loops, b: Step, preAbort: bool)
    requires LoopsInv(c) && CanStep(c, b)
    ensures Follows(c, b, preAbort)
  {
    if b.Lock? {
      RefinesLock(c, b, preAbort);
    } else if b.Compare? {
      RefinesCompare(c, b, preAbort);
    } else if b.Complete? {
      RefinesComplete(c, b, preAbort);
    } else if b.Free? {
      RefinesFree(c, b, preAbort);
    } else if b.Put? {
      RefinesPut(c, b, preAbort);
    } else {
      RefinesRest(c, b, preAbort);
    }
  }
}
