/**
 * What a lock request of a partition is answered (trusted/concurrency_control/plock.cpp:21-50), in
 * terms of who stands there, and that a run works on the partitions its transactions asked for.
 */
module PartLockExact {
  import opened Wrappers
  import opened PartLock
  import opened PartLockRuns

  /** Somebody older than `t` owns the partition or waits for it. */
  ghost predicate OlderThere(p: Part, t: nat) {
    exists x: nat :: In(p, x) && x < t
  }

  ghost predicate Empty(p: Part) {
    forall x: nat :: !In(p, x)
  }

  /** Granted exactly on an empty partition, queued exactly behind somebody older, refused otherwise. */
  lemma TryExact(p: Part, t: nat)
    requires PartOK(p) && !In(p, t)
    ensures Try(p, t) == Granted <==> Empty(p)
    ensures Try(p, t) == Wait <==> OlderThere(p, t)
    ensures Try(p, t) == Abort <==> !Empty(p) && !OlderThere(p, t)
  {
    if p.owner.Some? {
      assert In(p, p.owner.value);
      forall x: nat | In(p, x)
        ensures p.owner.value <= x
      {
      }
    }
  }

  /** The partition that a transaction locks next. */
  predicate LocksNext(s: State, t: nat, p: nat) {
    Enabled(s, LockNext(t)) && s.txns[t].parts[s.txns[t].pc.next] == p
  }

  /**
   * In every run: a request on an empty partition makes its transaction the owner, one behind
   * somebody older a waiter, each with the next request to come; and only one that finds
   * others there, all of them younger, starts to undo.
   */
  lemma LockNextExact(s: State, schedule: seq<Action>, t: nat, p: nat)
    requires Init(s) && Run(s, schedule).Some? && LocksNext(Run(s, schedule).value, t, p)
    ensures var f := Run(s, schedule).value;
      var g := Apply(f, LockNext(t));
      && p < |f.parts| == |g.parts|
      && (Empty(f.parts[p]) ==> g.parts[p].owner == Some(t))
      && (OlderThere(f.parts[p], t) ==> t in g.parts[p].waiters)
      && (Empty(f.parts[p]) || OlderThere(f.parts[p], t) ==> g.txns[t].pc == Locking(f.txns[t].pc.next + 1))
      && (!Empty(f.parts[p]) && !OlderThere(f.parts[p], t) ==> g.txns[t].pc == Undoing(0, f.txns[t].pc.next) && g.parts == f.parts)
  {
    RunInv(s, schedule);
    var f := Run(s, schedule).value;
    assert MembersOK(f, p) && TxnOK(f, t);
    var x := f.txns[t];
    assert p !in Engaged(x);
    TryExact(f.parts[p], t);
    LockedOK(f.parts[p], t);
  }

  /** The partitions that `t` asked for in the schedule. */
  function Asked(schedule: seq<Action>, t: nat): Option<seq<nat>> {
    if schedule == [] then None
    else
      var a := schedule[|schedule| - 1];
      if a.Begin? && a.t == t then Some(a.parts) else Asked(schedule[..|schedule| - 1], t)
  }

  lemma StepParts(s: State, a: Action, t: nat)
    requires Enabled(s, a)
    ensures var s' := Apply(s, a);
      if a.Begin? && a.t == t then t in s'.txns && s'.txns[t].parts == a.parts
      else (t in s'.txns <==> t in s.txns) && (t in s.txns ==> s'.txns[t].parts == s.txns[t].parts)
  {
  }

  /** A run has exactly the transactions that began, each with the partitions it asked for. */
  lemma {:induction false} RunAsked(s: State, schedule: seq<Action>, t: nat)
    requires Init(s) && Run(s, schedule).Some?
    ensures var f := Run(s, schedule).value;
      (t in f.txns <==> Asked(schedule, t).Some?) && (t in f.txns ==> Some(f.txns[t].parts) == Asked(schedule, t))
  {
    if schedule != [] {
      RunAsked(s, schedule[..|schedule| - 1], t);
      StepParts(Run(s, schedule[..|schedule| - 1]).value, schedule[|schedule| - 1], t);
    }
  }

  /** So a transaction that holds its locks owns every partition it asked for. */
  lemma OwnsWhatItAsked(s: State, schedule: seq<Action>, t: nat, p: nat)
    requires Init(s) && Run(s, schedule).Some? && t in Run(s, schedule).value.txns && Run(s, schedule).value.txns[t].pc.Holding?
    requires Asked(schedule, t).Some? && p in Asked(schedule, t).value
    ensures p < |Run(s, schedule).value.parts| && Run(s, schedule).value.parts[p].owner == Some(t)
  {
    RunAsked(s, schedule, t);
    LockMeansOwned(s, schedule, t);
  }
}
