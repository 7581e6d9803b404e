/**
 * Many transactions locking and unlocking sets of partitions (Plock::lock and Plock::unlock,
 * trusted/concurrency_control/plock.cpp:88-138), interleaved partition by partition.
 */
module PartLockRuns {
  import opened Wrappers
  import opened PartLock

  /** Where a transaction is: `next` is the index into its partitions. */
  datatype Pc =
    | Locking(next: nat)
    | Undoing(next: nat, upto: nat)
    | Spinning
    | Holding
    | Unlocking(next: nat)
    | Ended(aborted: bool)

  datatype Txn = Txn(parts: seq<nat>, pc: Pc, ready: int)

  datatype State = State(parts: seq<Part>, txns: map<nat, Txn>)

  datatype Action =
    | Begin(t: nat, parts: seq<nat>)
    | LockNext(t: nat)
    | AllLocked(t: nat)
    | UndoNext(t: nat)
    | Pass(t: nat)
    | Finish(t: nat)
    | UnlockNext(t: nat)

  predicate Distinct(s: seq<nat>) {
    forall i, j :: 0 <= i < j < |s| ==> s[i] != s[j]
  }

  predicate InRange(s: State, x: Txn) {
    Distinct(x.parts) && forall i :: 0 <= i < |x.parts| ==> x.parts[i] < |s.parts|
  }

  predicate Enabled(s: State, a: Action) {
    if a.Begin? then a.t !in s.txns && InRange(s, Txn(a.parts, Spinning, 0))
    else
      && a.t in s.txns && InRange(s, s.txns[a.t])
      && var x := s.txns[a.t];
      match a
      case Begin(_, _) => false
      case LockNext(_) => x.pc.Locking? && x.pc.next < |x.parts|
      case AllLocked(_) => x.pc.Locking? && x.pc.next == |x.parts|
      case UndoNext(_) => x.pc.Undoing? && x.pc.next <= x.pc.upto < |x.parts|
      case Pass(_) => x.pc.Spinning? && x.ready == 0
      case Finish(_) => x.pc.Holding?
      case UnlockNext(_) => x.pc.Unlocking? && x.pc.next <= |x.parts|
  }

  /** The partition is unlocked; whoever stops waiting there has one wait less. */
  function UnlockAt(s: State, t: nat, p: nat): State
    requires p < |s.parts|
  {
    var o, n := s.parts[p], Unlocked(s.parts[p], t);
    var fewer := if o.owner != Some(t) then Some(t) else n.owner;
    State(s.parts[p := n],
          if fewer.Some? && fewer.value in s.txns then
            s.txns[fewer.value := s.txns[fewer.value].(ready := s.txns[fewer.value].ready - 1)]
          else s.txns)
  }

  function SetPc(s: State, t: nat, pc: Pc): State
    requires t in s.txns
  {
    s.(txns := s.txns[t := s.txns[t].(pc := pc)])
  }

  function Apply(s: State, a: Action): State
    requires Enabled(s, a)
  {
    if a.Begin? then s.(txns := s.txns[a.t := Txn(a.parts, Locking(0), 0)])
    else
      var x := s.txns[a.t];
      match a
      case Begin(_, _) => s
      case LockNext(t) =>
        var p := x.parts[x.pc.next];
        if Try(s.parts[p], t) == Abort then SetPc(s, t, Undoing(0, x.pc.next))
        else State(s.parts[p := Locked(s.parts[p], t)],
                   s.txns[t := x.(pc := Locking(x.pc.next + 1), ready := x.ready + if Try(s.parts[p], t) == Wait then 1 else 0)])
      case AllLocked(t) => SetPc(s, t, Spinning)
      case UndoNext(t) =>
        if x.pc.next == x.pc.upto then SetPc(s, t, Ended(true))
        else UnlockAt(SetPc(s, t, Undoing(x.pc.next + 1, x.pc.upto)), t, x.parts[x.pc.next])
      case Pass(t) => SetPc(s, t, Holding)
      case Finish(t) => SetPc(s, t, Unlocking(0))
      case UnlockNext(t) =>
        if x.pc.next == |x.parts| then SetPc(s, t, Ended(false))
        else UnlockAt(SetPc(s, t, Unlocking(x.pc.next + 1)), t, x.parts[x.pc.next])
  }

  // ----- the invariant

  /** The partitions where a transaction stands, as owner or waiter. */
  function Engaged(x: Txn): seq<nat> {
    match x.pc
    case Locking(i) => if i <= |x.parts| then x.parts[..i] else []
    case Undoing(j, i) => if j <= i <= |x.parts| then x.parts[j..i] else []
    case Spinning => x.parts
    case Holding => x.parts
    case Unlocking(j) => if j <= |x.parts| then x.parts[j..] else []
    case Ended(_) => []
  }

  predicate PcOK(x: Txn) {
    match x.pc
    case Locking(i) => i <= |x.parts|
    case Undoing(j, i) => j <= i < |x.parts|
    case Unlocking(j) => j <= |x.parts|
    case _ => true
  }

  ghost function WaitSet(s: State, t: nat): set<nat> {
    set p | 0 <= p < |s.parts| && t in s.parts[p].waiters
  }

  predicate MembersOK(s: State, p: nat)
    requires p < |s.parts|
  {
    && PartOK(s.parts[p])
    && (forall t :: t in s.txns && p in Engaged(s.txns[t]) ==> In(s.parts[p], t))
    && (s.parts[p].owner.Some? ==> s.parts[p].owner.value in s.txns && p in Engaged(s.txns[s.parts[p].owner.value]))
    && (forall t :: t in s.parts[p].waiters ==> t in s.txns && p in Engaged(s.txns[t]))
  }

  ghost predicate TxnOK(s: State, t: nat)
    requires t in s.txns
  {
    var x := s.txns[t];
    && InRange(s, x) && PcOK(x) && x.ready == |WaitSet(s, t)|
    && (x.pc.Holding? || x.pc.Unlocking? ==> x.ready == 0)
  }

  ghost predicate Inv(s: State) {
    && (forall p :: 0 <= p < |s.parts| ==> MembersOK(s, p))
    && (forall t :: t in s.txns ==> TxnOK(s, t))
  }

  lemma NewTxn(s: State, t: nat, parts: seq<nat>)
    requires Inv(s) && Enabled(s, Begin(t, parts))
    ensures Inv(Apply(s, Begin(t, parts)))
  {
    var u := Apply(s, Begin(t, parts));
    forall p | 0 <= p < |u.parts|
      ensures MembersOK(u, p)
    {
      assert MembersOK(s, p);
    }
    assert WaitSet(u, t) == {} by {
      forall p | 0 <= p < |s.parts|
        ensures t !in s.parts[p].waiters
      {
        assert MembersOK(s, p);
      }
    }
    forall x | x in u.txns
      ensures TxnOK(u, x)
    {
      assert x != t ==> TxnOK(s, x) && WaitSet(u, x) == WaitSet(s, x);
    }
  }

  /** A step that moves one transaction without changing where it stands. */
  lemma MovePc(s: State, t: nat, pc: Pc)
    requires Inv(s) && t in s.txns && PcOK(s.txns[t].(pc := pc)) && (pc.Holding? || pc.Unlocking? ==> s.txns[t].ready == 0)
    requires forall p :: p in Engaged(s.txns[t].(pc := pc)) <==> p in Engaged(s.txns[t])
    ensures Inv(SetPc(s, t, pc))
  {
    var u := SetPc(s, t, pc);
    forall p | 0 <= p < |u.parts|
      ensures MembersOK(u, p)
    {
      assert MembersOK(s, p);
    }
    forall x | x in u.txns
      ensures TxnOK(u, x)
    {
      assert TxnOK(s, x) && WaitSet(u, x) == WaitSet(s, x);
    }
  }

  /** A partition locked, or waited for. */
  predicate Locks(s: State, t: nat) {
    Enabled(s, LockNext(t)) && Try(s.parts[s.txns[t].parts[s.txns[t].pc.next]], t) != Abort
  }

  lemma LockEngages(s: State, t: nat)
    requires Inv(s) && Locks(s, t)
    ensures var u, x := Apply(s, LockNext(t)), s.txns[t];
            var p := x.parts[x.pc.next];
            p !in Engaged(x) && !In(s.parts[p], t) && Engaged(u.txns[t]) == Engaged(x) + [p]
  {
    var x := s.txns[t];
    var p := x.parts[x.pc.next];
    assert TxnOK(s, t) && MembersOK(s, p);
  }

  lemma LockMembers(s: State, t: nat, q: nat)
    requires Inv(s) && Locks(s, t) && q < |s.parts|
    ensures MembersOK(Apply(s, LockNext(t)), q)
  {
    var u, x := Apply(s, LockNext(t)), s.txns[t];
    var p := x.parts[x.pc.next];
    LockEngages(s, t);
    LockedOK(s.parts[p], t) by { assert MembersOK(s, p); }
    assert MembersOK(s, q);
    assert forall y :: y in u.txns && y != t ==> Engaged(u.txns[y]) == Engaged(s.txns[y]);
    if q == p {
      assert In(u.parts[p], t);
    }
  }

  lemma LockWaits(s: State, t: nat, y: nat)
    requires Inv(s) && Locks(s, t)
    ensures var x := s.txns[t];
            var p := x.parts[x.pc.next];
            && p !in WaitSet(s, t)
            && WaitSet(Apply(s, LockNext(t)), y) == WaitSet(s, y) + if y == t && Try(s.parts[p], t) == Wait then {p} else {}
  {
    var p := s.txns[t].parts[s.txns[t].pc.next];
    LockEngages(s, t);
    assert MembersOK(s, p);
    LockedOK(s.parts[p], t);
  }

  lemma LockKeeps(s: State, t: nat)
    requires Inv(s) && Locks(s, t)
    ensures Inv(Apply(s, LockNext(t)))
  {
    var u := Apply(s, LockNext(t));
    forall q | 0 <= q < |u.parts|
      ensures MembersOK(u, q)
    {
      LockMembers(s, t, q);
    }
    forall y | y in u.txns
      ensures TxnOK(u, y)
    {
      assert TxnOK(s, y);
      LockWaits(s, t, y);
    }
  }

  function FewerAt(s: State, t: nat, p: nat): Option<nat>
    requires p < |s.parts|
  {
    if s.parts[p].owner != Some(t) then Some(t) else Unlocked(s.parts[p], t).owner
  }

  /** Who stops waiting: the one that leaves the queue. */
  lemma UnlockWaits(s: State, t: nat, p: nat, y: nat)
    requires p < |s.parts| && PartOK(s.parts[p]) && In(s.parts[p], t)
    ensures var u := s.(parts := s.parts[p := Unlocked(s.parts[p], t)]);
            WaitSet(u, y) == WaitSet(s, y) - if FewerAt(s, t, p) == Some(y) then {p} else {}
    ensures FewerAt(s, t, p) == Some(y) ==> p in WaitSet(s, y)
  {
    UnlockedOK(s.parts[p], t);
  }

  predicate Leaves(s: State, t: nat, p: nat, pc: Pc) {
    && t in s.txns && p < |s.parts| && p in Engaged(s.txns[t])
    && var x := s.txns[t].(pc := pc);
    && PcOK(x) && !pc.Holding? && (pc.Unlocking? ==> s.txns[t].ready == 0)
    && (forall q :: q in Engaged(s.txns[t]) && q != p ==> q in Engaged(x))
    && (forall q :: q in Engaged(x) ==> q in Engaged(s.txns[t]) && q != p)
  }

  /** An unlock leaves everybody's partitions and place, but for the place of `t`. */
  lemma UnlockPlaces(s: State, t: nat, p: nat, pc: Pc, y: nat)
    requires t in s.txns && p < |s.parts| && y in s.txns
    ensures var u := UnlockAt(SetPc(s, t, pc), t, p);
            y in u.txns && u.txns[y].parts == s.txns[y].parts && u.txns[y].pc == if y == t then pc else s.txns[y].pc
  {
  }

  lemma UnlockEngaged(s: State, t: nat, p: nat, pc: Pc, y: nat, q: nat)
    requires Leaves(s, t, p, pc) && y in s.txns
    ensures var u := UnlockAt(SetPc(s, t, pc), t, p);
            y in u.txns && (q in Engaged(u.txns[y]) <==> q in Engaged(s.txns[y]) && !(y == t && q == p))
  {
    UnlockPlaces(s, t, p, pc, y);
    var u := UnlockAt(SetPc(s, t, pc), t, p);
    assert Engaged(u.txns[y]) == if y == t then Engaged(s.txns[t].(pc := pc)) else Engaged(s.txns[y]);
  }

  lemma UnlockMembers(s: State, t: nat, p: nat, pc: Pc, q: nat)
    requires Inv(s) && Leaves(s, t, p, pc) && q < |s.parts|
    ensures MembersOK(UnlockAt(SetPc(s, t, pc), t, p), q)
  {
    var u := UnlockAt(SetPc(s, t, pc), t, p);
    assert MembersOK(s, q);
    if q == p {
      UnlockedOK(s.parts[p], t);
    }
    assert u.txns.Keys == s.txns.Keys;
    forall y | y in s.txns
      ensures q in Engaged(u.txns[y]) <==> q in Engaged(s.txns[y]) && !(y == t && q == p)
    {
      UnlockEngaged(s, t, p, pc, y, q);
    }
  }

  lemma UnlockTxn(s: State, t: nat, p: nat, pc: Pc, y: nat)
    requires Inv(s) && Leaves(s, t, p, pc) && y in s.txns
    ensures var u := UnlockAt(SetPc(s, t, pc), t, p); y in u.txns && TxnOK(u, y)
  {
    var u := UnlockAt(SetPc(s, t, pc), t, p);
    assert MembersOK(s, p) && TxnOK(s, y);
    UnlockWaits(s, t, p, y);
    assert WaitSet(u, y) == WaitSet(s.(parts := u.parts), y);
    assert u.txns[y].ready == s.txns[y].ready - if FewerAt(s, t, p) == Some(y) then 1 else 0;
  }

  lemma UnlockKeeps(s: State, t: nat, p: nat, pc: Pc)
    requires Inv(s) && Leaves(s, t, p, pc)
    ensures Inv(UnlockAt(SetPc(s, t, pc), t, p))
  {
    var u := UnlockAt(SetPc(s, t, pc), t, p);
    forall q | 0 <= q < |u.parts|
      ensures MembersOK(u, q)
    {
      UnlockMembers(s, t, p, pc, q);
    }
    forall y | y in u.txns
      ensures TxnOK(u, y)
    {
      UnlockTxn(s, t, p, pc, y);
    }
  }

  lemma EngagedDrops(parts: seq<nat>, j: nat, i: nat)
    requires Distinct(parts) && j < i <= |parts|
    ensures parts[j] in parts[j..i] && forall q :: q in parts[j + 1..i] <==> q in parts[j..i] && q != parts[j]
  {
    assert parts[j..i] == [parts[j]] + parts[j + 1..i];
  }

  lemma UndoKeeps(s: State, t: nat)
    requires Inv(s) && Enabled(s, UndoNext(t))
    ensures Inv(Apply(s, UndoNext(t)))
  {
    var x := s.txns[t];
    assert TxnOK(s, t);
    if x.pc.next == x.pc.upto {
      MovePc(s, t, Ended(true));
    } else {
      EngagedDrops(x.parts, x.pc.next, x.pc.upto);
      UnlockKeeps(s, t, x.parts[x.pc.next], Undoing(x.pc.next + 1, x.pc.upto));
    }
  }

  lemma EngagedTail(parts: seq<nat>, j: nat)
    requires Distinct(parts) && j < |parts|
    ensures parts[j] in parts[j..] && parts[j] !in parts[j + 1..]
    ensures forall q :: q in parts[j..] && q != parts[j] ==> q in parts[j + 1..]
    ensures forall q :: q in parts[j + 1..] ==> q in parts[j..]
  {
    assert parts[j..] == [parts[j]] + parts[j + 1..];
  }

  lemma UnlockingLeaves(s: State, t: nat)
    requires t in s.txns && TxnOK(s, t) && s.txns[t].pc.Unlocking? && s.txns[t].pc.next < |s.txns[t].parts|
    ensures var x := s.txns[t]; Leaves(s, t, x.parts[x.pc.next], Unlocking(x.pc.next + 1))
  {
    var x := s.txns[t];
    var y := x.(pc := Unlocking(x.pc.next + 1));
    EngagedTail(x.parts, x.pc.next);
    assert Engaged(x) == x.parts[x.pc.next..] && Engaged(y) == x.parts[x.pc.next + 1..];
  }

  lemma UnlockingKeeps(s: State, t: nat)
    requires Inv(s) && Enabled(s, UnlockNext(t))
    ensures Inv(Apply(s, UnlockNext(t)))
  {
    var x := s.txns[t];
    assert TxnOK(s, t);
    if x.pc.next == |x.parts| {
      MovePc(s, t, Ended(false));
    } else {
      UnlockingLeaves(s, t);
      UnlockKeeps(s, t, x.parts[x.pc.next], Unlocking(x.pc.next + 1));
    }
  }

  /** Every step keeps the invariant. */
  lemma KeepInv(s: State, a: Action)
    requires Inv(s) && Enabled(s, a)
    ensures Inv(Apply(s, a))
  {
    if a.t in s.txns {
      assert TxnOK(s, a.t);
    }
    match a
    case Begin(t, parts) => NewTxn(s, t, parts);
    case LockNext(t) =>
      var x := s.txns[t];
      if Try(s.parts[x.parts[x.pc.next]], t) == Abort {
        MovePc(s, t, Undoing(0, x.pc.next));
      } else {
        LockKeeps(s, t);
      }
    case AllLocked(t) =>
      assert s.txns[t].parts[..s.txns[t].pc.next] == s.txns[t].parts;
      MovePc(s, t, Spinning);
    case UndoNext(t) => UndoKeeps(s, t);
    case Pass(t) => MovePc(s, t, Holding);
    case Finish(t) => MovePc(s, t, Unlocking(0));
    case UnlockNext(t) => UnlockingKeeps(s, t);
  }

  // ----- whole runs

  predicate Init(s: State) {
    s.txns == map[] && forall p :: 0 <= p < |s.parts| ==> s.parts[p] == Part(None, [])
  }

  function Run(s: State, schedule: seq<Action>): Option<State> {
    if schedule == [] then Some(s)
    else
      match Run(s, schedule[..|schedule| - 1])
      case None => None
      case Some(m) =>
        var a := schedule[|schedule| - 1];
        if Enabled(m, a) then Some(Apply(m, a)) else None
  }

  lemma {:induction false} RunInv(s: State, schedule: seq<Action>)
    requires Init(s) && Run(s, schedule).Some?
    ensures Inv(Run(s, schedule).value)
  {
    if schedule == [] {
      assert forall p :: 0 <= p < |s.parts| ==> MembersOK(s, p);
    } else {
      RunInv(s, schedule[..|schedule| - 1]);
      KeepInv(Run(s, schedule[..|schedule| - 1]).value, schedule[|schedule| - 1]);
    }
  }

  lemma Owns(s: State, t: nat)
    requires Inv(s) && t in s.txns
    ensures s.txns[t].pc.Holding? ==> forall p :: p in s.txns[t].parts ==> p < |s.parts| && s.parts[p].owner == Some(t)
    ensures s.txns[t].pc.Ended? ==> s.txns[t].ready == 0 && forall p :: 0 <= p < |s.parts| ==> !In(s.parts[p], t)
  {
    var x := s.txns[t];
    assert TxnOK(s, t);
    forall p | 0 <= p < |s.parts|
      ensures x.pc.Holding? && p in x.parts ==> s.parts[p].owner == Some(t)
      ensures x.pc.Ended? ==> !In(s.parts[p], t)
    {
      assert MembersOK(s, p);
      assert x.pc.Holding? ==> p !in WaitSet(s, t);
    }
    if x.pc.Ended? {
      assert WaitSet(s, t) == {};
    }
  }

  /** In every run a granted Plock::lock owns every partition asked for; an aborted one neither owns nor waits, and its count is 0. */
  lemma LockMeansOwned(s: State, schedule: seq<Action>, t: nat)
    requires Init(s) && Run(s, schedule).Some? && t in Run(s, schedule).value.txns
    ensures var f := Run(s, schedule).value;
            && (f.txns[t].pc.Holding? ==> forall p :: p in f.txns[t].parts ==> p < |f.parts| && f.parts[p].owner == Some(t))
            && (f.txns[t].pc.Ended? ==> f.txns[t].ready == 0 && forall p :: 0 <= p < |f.parts| ==> !In(f.parts[p], t))
  {
    RunInv(s, schedule);
    Owns(Run(s, schedule).value, t);
  }

  /** Two granted transactions never share a partition. */
  lemma Exclusive(s: State, schedule: seq<Action>, t: nat, u: nat, p: nat)
    requires Init(s) && Run(s, schedule).Some?
    requires var f := Run(s, schedule).value;
             && t in f.txns && u in f.txns && f.txns[t].pc.Holding? && f.txns[u].pc.Holding?
             && p in f.txns[t].parts && p in f.txns[u].parts
    ensures t == u
  {
    LockMeansOwned(s, schedule, t);
    LockMeansOwned(s, schedule, u);
  }

  // ----- no deadlock

  predicate Active(s: State, t: nat) {
    t in s.txns && !s.txns[t].pc.Ended?
  }

  /** On some partition `t` waits for its owner `u`, or behind `u` in its queue. */
  predicate WaitsFor(s: State, t: nat, u: nat) {
    exists p, i :: 0 <= p < |s.parts| && 0 <= i < |s.parts[p].waiters| && s.parts[p].waiters[i] == t &&
      (s.parts[p].owner == Some(u) || u in s.parts[p].waiters[..i])
  }

  /** Waiting is always for an older transaction. */
  lemma WaitsForOlder(s: State, t: nat, u: nat)
    requires Inv(s) && WaitsFor(s, t, u)
    ensures u < t
  {
    var p, i :| 0 <= p < |s.parts| && 0 <= i < |s.parts[p].waiters| && s.parts[p].waiters[i] == t &&
      (s.parts[p].owner == Some(u) || u in s.parts[p].waiters[..i]);
    assert MembersOK(s, p);
  }

  lemma {:induction false} Descends(s: seq<nat>, k: nat)
    requires k < |s| && forall i :: 0 <= i < |s| - 1 ==> s[i] > s[if i + 1 < |s| then i + 1 else 0]
    ensures s[0] >= s[k]
  {
    if k > 0 {
      Descends(s, k - 1);
      assert s[k - 1] > s[if k - 1 + 1 < |s| then k - 1 + 1 else 0];
    }
  }

  /** In every run the waits-for graph over all partitions has no cycle. */
  lemma NoWaitCycle(s: State, schedule: seq<Action>, circle: seq<nat>)
    requires Init(s) && Run(s, schedule).Some? && |circle| > 0
    ensures exists i :: 0 <= i < |circle| && !WaitsFor(Run(s, schedule).value, circle[i], circle[if i + 1 < |circle| then i + 1 else 0])
  {
    RunInv(s, schedule);
    var f := Run(s, schedule).value;
    if forall i :: 0 <= i < |circle| ==> WaitsFor(f, circle[i], circle[if i + 1 < |circle| then i + 1 else 0]) {
      forall i | 0 <= i < |circle|
        ensures circle[i] > circle[if i + 1 < |circle| then i + 1 else 0]
      {
        WaitsForOlder(f, circle[i], circle[if i + 1 < |circle| then i + 1 else 0]);
      }
      Descends(circle, |circle| - 1);
      assert false;
    }
  }

  /** In every run the oldest active transaction has a step to take. */
  lemma OldestMoves(s: State, schedule: seq<Action>, t: nat)
    requires Init(s) && Run(s, schedule).Some?
    requires var f := Run(s, schedule).value; Active(f, t) && forall u :: Active(f, u) ==> t <= u
    ensures exists a: Action :: !a.Begin? && a.t == t && Enabled(Run(s, schedule).value, a)
  {
    RunInv(s, schedule);
    OldestCanMove(Run(s, schedule).value, t);
  }

  lemma NoOlderOwner(s: State, t: nat)
    requires Inv(s) && Active(s, t) && forall u :: Active(s, u) ==> t <= u
    ensures WaitSet(s, t) == {}
  {
    forall p | 0 <= p < |s.parts|
      ensures t !in s.parts[p].waiters
    {
      assert MembersOK(s, p);
      assert s.parts[p].owner.Some? ==> Active(s, s.parts[p].owner.value);
    }
  }

  lemma OldestCanMove(s: State, t: nat)
    requires Inv(s) && Active(s, t) && forall u :: Active(s, u) ==> t <= u
    ensures exists a: Action :: !a.Begin? && a.t == t && Enabled(s, a)
  {
    var x := s.txns[t];
    assert TxnOK(s, t);
    match x.pc
    case Locking(i) =>
      if i < |x.parts| {
        assert Enabled(s, LockNext(t));
      } else {
        assert Enabled(s, AllLocked(t));
      }
    case Undoing(_, _) => assert Enabled(s, UndoNext(t));
    case Holding => assert Enabled(s, Finish(t));
    case Unlocking(_) => assert Enabled(s, UnlockNext(t));
    case Spinning =>
      NoOlderOwner(s, t);
      assert Enabled(s, Pass(t));
  }
}
