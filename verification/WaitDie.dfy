/**
 * The wait-die row lock (trusted/concurrency_control/row_lock.cpp with CC_ALG == WAIT_DIE, list
 * macros in common/helper.h). Timestamps are unique, so a transaction is named by its timestamp.
 */
module WaitDie {
  import opened Wrappers

  datatype LockType = LOCK_NONE | LOCK_SH | LOCK_EX

  datatype RC = RCOK | WAIT | Abort

  datatype Entry = Entry(ts: nat, kind: LockType)

  /** One row's lock: the owner stack and the waiter list, head first. */
  datatype Lock = Lock(kind: LockType, owners: seq<Entry>, waiters: seq<Entry>)

  predicate ConflictLock(l1: LockType, l2: LockType) {
    if l1 == LOCK_NONE || l2 == LOCK_NONE then false else l1 == LOCK_EX || l2 == LOCK_EX
  }

  predicate Holds(l: Lock, ts: nat) {
    exists i :: 0 <= i < |l.owners| && l.owners[i].ts == ts
  }

  predicate Waits(l: Lock, ts: nat) {
    exists i :: 0 <= i < |l.waiters| && l.waiters[i].ts == ts
  }

  // ----- the invariant

  predicate OwnersOK(l: Lock) {
    && (l.kind == LOCK_NONE <==> l.owners == [])
    && (forall i :: 0 <= i < |l.owners| ==> l.owners[i].kind == l.kind)
    && (l.kind == LOCK_EX ==> |l.owners| == 1)
    && (forall i, j :: 0 <= i < j < |l.owners| ==> l.owners[i].ts != l.owners[j].ts)
  }

  predicate WaitersOK(l: Lock) {
    && (forall i :: 0 <= i < |l.waiters| ==> l.waiters[i].kind != LOCK_NONE)
    && (forall i, j :: 0 <= i < j < |l.waiters| ==> l.waiters[i].ts > l.waiters[j].ts)
    && (forall i, j :: 0 <= i < |l.waiters| && 0 <= j < |l.owners| ==> l.waiters[i].ts < l.owners[j].ts)
  }

  /** Strictly descending waiters, all older than every owner, an exclusive owner alone, and a head that really is blocked. */
  predicate Valid(l: Lock) {
    OwnersOK(l) && WaitersOK(l) && (l.waiters != [] ==> ConflictLock(l.kind, l.waiters[0].kind))
  }

  // ----- the operations as functions

  predicate MustWait(l: Lock, e: Entry) {
    ConflictLock(l.kind, e.kind) || (l.waiters != [] && e.ts < l.waiters[0].ts)
  }

  predicate CanWait(l: Lock, e: Entry) {
    forall i :: 0 <= i < |l.owners| ==> e.ts <= l.owners[i].ts
  }

  /** Number of waiters that stay in front of `ts`. */
  function Ahead(w: seq<Entry>, ts: nat): (n: nat)
    ensures n <= |w|
  {
    if w == [] || ts >= w[0].ts then 0 else 1 + Ahead(w[1..], ts)
  }

  function Get(l: Lock, e: Entry): (Lock, RC) {
    if !MustWait(l, e) then (Lock(e.kind, [e] + l.owners, l.waiters), RCOK)
    else if CanWait(l, e) then
      var n := Ahead(l.waiters, e.ts);
      (l.(waiters := l.waiters[..n] + [e] + l.waiters[n..]), WAIT)
    else (l, Abort)
  }

  function Without(s: seq<Entry>, ts: nat): seq<Entry> {
    if s == [] then []
    else if s[0].ts == ts then s[1..]
    else [s[0]] + Without(s[1..], ts)
  }

  function Remove(l: Lock, ts: nat): Lock {
    if Holds(l, ts) then
      var o := Without(l.owners, ts);
      Lock(if o == [] then LOCK_NONE else l.kind, o, l.waiters)
    else l.(waiters := Without(l.waiters, ts))
  }

  /** Waiters join the owners from the head on, as long as they do not conflict. */
  function Promote(l: Lock): Lock
    decreases |l.waiters|
  {
    if l.waiters == [] || ConflictLock(l.kind, l.waiters[0].kind) then l
    else Promote(Joined(l))
  }

  function Release(l: Lock, ts: nat): Lock {
    Promote(Remove(l, ts))
  }

  // ----- preservation

  lemma {:induction false} AheadSplits(w: seq<Entry>, ts: nat)
    requires forall i, j :: 0 <= i < j < |w| ==> w[i].ts > w[j].ts
    ensures forall i :: 0 <= i < |w| ==> (i < Ahead(w, ts) <==> ts < w[i].ts)
  {
    if w != [] && ts < w[0].ts {
      AheadSplits(w[1..], ts);
      assert forall i :: 1 <= i < |w| ==> w[i] == w[1..][i - 1];
    }
  }

  /** Every request keeps the invariant; a refused one changes nothing. */
  lemma GetValid(l: Lock, e: Entry)
    requires Valid(l) && e.kind != LOCK_NONE && !Holds(l, e.ts) && !Waits(l, e.ts)
    ensures Valid(Get(l, e).0)
    ensures Get(l, e).1 == Abort ==> Get(l, e).0 == l && exists i :: 0 <= i < |l.owners| && l.owners[i].ts < e.ts
    ensures Get(l, e).1 == RCOK ==> Holds(Get(l, e).0, e.ts)
    ensures Get(l, e).1 == WAIT ==> Waits(Get(l, e).0, e.ts)
  {
    match Get(l, e).1
    case RCOK => GrantValid(l, e);
    case WAIT => WaitValid(l, e);
    case Abort =>
  }

  lemma GrantValid(l: Lock, e: Entry)
    requires Valid(l) && e.kind != LOCK_NONE && !Holds(l, e.ts) && !Waits(l, e.ts) && Get(l, e).1 == RCOK
    ensures Valid(Get(l, e).0) && Holds(Get(l, e).0, e.ts)
  {
    var m := Get(l, e).0;
    assert m == Lock(e.kind, [e] + l.owners, l.waiters);
    GrantOwners(l, e);
    assert m.owners[0] == e;
    forall i, j | 0 <= i < |m.waiters| && 0 <= j < |m.owners|
      ensures m.waiters[i].ts < m.owners[j].ts
    {
      assert j > 0 ==> m.owners[j] == l.owners[j - 1];
      assert m.waiters[i].ts <= l.waiters[0].ts;
    }
  }

  lemma GrantOwners(l: Lock, e: Entry)
    requires OwnersOK(l) && e.kind != LOCK_NONE && !Holds(l, e.ts) && !ConflictLock(l.kind, e.kind)
    ensures OwnersOK(Lock(e.kind, [e] + l.owners, l.waiters))
  {
    var o := [e] + l.owners;
    forall i, j | 0 <= i < j < |o|
      ensures o[i].ts != o[j].ts
    {
      assert o[j] == l.owners[j - 1];
      assert i > 0 ==> o[i] == l.owners[i - 1];
    }
  }

  lemma WaitValid(l: Lock, e: Entry)
    requires Valid(l) && e.kind != LOCK_NONE && !Holds(l, e.ts) && !Waits(l, e.ts) && Get(l, e).1 == WAIT
    ensures Valid(Get(l, e).0) && Waits(Get(l, e).0, e.ts)
  {
    var n := Ahead(l.waiters, e.ts);
    AheadSplits(l.waiters, e.ts);
    var w := Get(l, e).0.waiters;
    assert w[n] == e;
    assert forall i :: 0 <= i < |w| ==> w[i] == if i < n then l.waiters[i] else if i == n then e else l.waiters[i - 1];
  }

  lemma {:induction false} WithoutIndex(s: seq<Entry>, ts: nat) returns (k: nat)
    requires exists i :: 0 <= i < |s| && s[i].ts == ts
    ensures k < |s| && s[k].ts == ts && Without(s, ts) == s[..k] + s[k + 1..]
  {
    if s[0].ts == ts {
      k := 0;
    } else {
      var j := WithoutIndex(s[1..], ts);
      k := j + 1;
      assert s[..k] == [s[0]] + s[1..][..j] && s[k + 1..] == s[1..][j + 1..];
    }
  }

  /** A list with distinct timestamps without one entry: the others, in their order. */
  lemma WithoutRest(s: seq<Entry>, ts: nat) returns (k: nat)
    requires exists i :: 0 <= i < |s| && s[i].ts == ts
    requires forall i, j :: 0 <= i < j < |s| ==> s[i].ts != s[j].ts
    ensures k < |s| && s[k].ts == ts && |Without(s, ts)| == |s| - 1
    ensures forall i :: 0 <= i < |s| - 1 ==> Without(s, ts)[i] == s[if i < k then i else i + 1] && Without(s, ts)[i].ts != ts
  {
    k := WithoutIndex(s, ts);
    var o := Without(s, ts);
    forall i | 0 <= i < |s| - 1
      ensures o[i] == s[if i < k then i else i + 1] && o[i].ts != ts
    {
      assert o[i] == s[if i < k then i else i + 1];
      assert i < k ==> s[i].ts != s[k].ts;
      assert i >= k ==> s[k].ts != s[i + 1].ts;
    }
  }

  lemma RemoveOwner(l: Lock, ts: nat)
    requires Valid(l) && Holds(l, ts)
    ensures OwnersOK(Remove(l, ts)) && WaitersOK(Remove(l, ts))
    ensures Gone(Remove(l, ts), ts)
  {
    var k := WithoutRest(l.owners, ts);
    assert forall i :: 0 <= i < |l.waiters| ==> l.waiters[i].ts < l.owners[k].ts;
  }

  lemma RemoveWaiter(l: Lock, ts: nat)
    requires Valid(l) && !Holds(l, ts) && Waits(l, ts)
    ensures OwnersOK(Remove(l, ts)) && WaitersOK(Remove(l, ts))
    ensures Gone(Remove(l, ts), ts)
  {
    var k := WithoutRest(l.waiters, ts);
    assert forall i :: 0 <= i < |l.owners| ==> l.owners[i].ts != ts;
  }

  /** `ts` has no entry on the row. */
  predicate Gone(l: Lock, ts: nat) {
    && (forall i :: 0 <= i < |l.owners| ==> l.owners[i].ts != ts)
    && (forall i :: 0 <= i < |l.waiters| ==> l.waiters[i].ts != ts)
  }

  function Joined(l: Lock): Lock
    requires l.waiters != []
  {
    Lock(l.waiters[0].kind, [l.waiters[0]] + l.owners, l.waiters[1..])
  }

  lemma JoinedValid(l: Lock)
    requires OwnersOK(l) && WaitersOK(l) && l.waiters != [] && !ConflictLock(l.kind, l.waiters[0].kind)
    ensures OwnersOK(Joined(l)) && WaitersOK(Joined(l))
  {
    var m := Joined(l);
    assert m.owners[0] == l.waiters[0];
    assert forall i :: 0 <= i < |m.owners| ==> m.owners[i] == if i == 0 then l.waiters[0] else l.owners[i - 1];
    assert forall i :: 0 <= i < |m.waiters| ==> m.waiters[i] == l.waiters[i + 1];
  }

  lemma {:induction false} PromoteValid(l: Lock)
    requires OwnersOK(l) && WaitersOK(l)
    ensures Valid(Promote(l))
    decreases |l.waiters|
  {
    if l.waiters != [] && !ConflictLock(l.kind, l.waiters[0].kind) {
      JoinedValid(l);
      PromoteValid(Joined(l));
    }
  }

  lemma {:induction false} PromoteGone(l: Lock, ts: nat)
    requires Gone(l, ts)
    ensures Gone(Promote(l), ts)
    decreases |l.waiters|
  {
    if l.waiters != [] && !ConflictLock(l.kind, l.waiters[0].kind) {
      PromoteGone(Joined(l), ts);
    }
  }

  /** A release keeps the invariant and forgets the transaction. */
  lemma ReleaseValid(l: Lock, ts: nat)
    requires Valid(l) && (Holds(l, ts) || Waits(l, ts))
    ensures Valid(Release(l, ts)) && Gone(Release(l, ts), ts)
  {
    if Holds(l, ts) {
      RemoveOwner(l, ts);
    } else {
      RemoveWaiter(l, ts);
    }
    PromoteValid(Remove(l, ts));
    PromoteGone(Remove(l, ts), ts);
  }

  function Entries(l: Lock): multiset<Entry> {
    multiset(l.owners) + multiset(l.waiters)
  }

  /** Nobody else is lost: the entries of the row are the old ones minus the one that left. */
  lemma ReleaseKeepsOthers(l: Lock, ts: nat) returns (e: Entry)
    requires Valid(l) && (Holds(l, ts) || Waits(l, ts))
    ensures e.ts == ts && Entries(Release(l, ts)) + multiset{e} == Entries(l)
  {
    PromoteKeeps(Remove(l, ts));
    e := RemoveKeeps(l, ts);
  }

  lemma RemoveKeeps(l: Lock, ts: nat) returns (e: Entry)
    requires Holds(l, ts) || Waits(l, ts)
    ensures e.ts == ts && Entries(Remove(l, ts)) + multiset{e} == Entries(l)
  {
    if Holds(l, ts) {
      e := WithoutKeeps(l.owners, ts);
    } else {
      e := WithoutKeeps(l.waiters, ts);
    }
  }

  lemma WithoutKeeps(s: seq<Entry>, ts: nat) returns (e: Entry)
    requires exists i :: 0 <= i < |s| && s[i].ts == ts
    ensures e.ts == ts && multiset(Without(s, ts)) + multiset{e} == multiset(s)
  {
    var k := WithoutIndex(s, ts);
    e := s[k];
    TakeOut(s, k);
  }

  lemma TakeOut(s: seq<Entry>, k: nat)
    requires k < |s|
    ensures multiset(s) == multiset(s[..k] + s[k + 1..]) + multiset{s[k]}
  {
    assert s == s[..k] + [s[k]] + s[k + 1..];
  }

  lemma {:induction false} PromoteKeeps(l: Lock)
    ensures Entries(Promote(l)) == Entries(l)
    decreases |l.waiters|
  {
    if l.waiters != [] && !ConflictLock(l.kind, l.waiters[0].kind) {
      PromoteKeeps(Joined(l));
      assert l.waiters == [l.waiters[0]] + l.waiters[1..];
    }
  }

  // ----- the row lock object

  class RowLock {
    var lockType: LockType
    var ownerCnt: nat
    var waiterCnt: nat
    var owners: seq<Entry>     // a stack: the newest owner first
    var waiters: seq<Entry>    // head first

    ghost function View(): Lock
      reads this
    {
      Lock(lockType, owners, waiters)
    }

    ghost predicate Counted()
      reads this
    {
      ownerCnt == |owners| && waiterCnt == |waiters|
    }

    constructor ()
      ensures Counted() && View() == Lock(LOCK_NONE, [], [])
    {
      lockType, ownerCnt, waiterCnt, owners, waiters := LOCK_NONE, 0, 0, [], [];
    }

    /** lock_get(). */
    method LockGet(kind: LockType, ts: nat) returns (rc: RC)
      requires Counted()
      modifies this
      ensures Counted() && (View(), rc) == Get(old(View()), Entry(ts, kind))
    {
      var entry := Entry(ts, kind);
      var conflict := ConflictLock(lockType, kind);
      if !conflict {
        if waiters != [] && ts < waiters[0].ts {
          conflict := true;
        }
      }
      if conflict {
        var canwait, i := true, 0;
        while i < |owners|
          invariant 0 <= i <= |owners| && canwait
          invariant forall j :: 0 <= j < i ==> ts <= owners[j].ts
        {
          if owners[i].ts < ts {
            canwait := false;
            break;
          }
          i := i + 1;
        }
        if canwait {
          var n := 0;
          while n < |waiters| && ts < waiters[n].ts
            invariant 0 <= n <= |waiters| && n + Ahead(waiters[n..], ts) == Ahead(waiters, ts)
          {
            assert waiters[n..][1..] == waiters[n + 1..];
            n := n + 1;
          }
          waiters := waiters[..n] + [entry] + waiters[n..];
          waiterCnt := waiterCnt + 1;
          rc := WAIT;
        } else {
          rc := Abort;
        }
      } else {
        owners := [entry] + owners;
        ownerCnt := ownerCnt + 1;
        lockType := kind;
        rc := RCOK;
      }
    }

    /** lock_release(): takes the transaction out of the row, then lets waiters in from the head. */
    method LockRelease(ts: nat)
      requires Counted() && (Holds(View(), ts) || Waits(View(), ts))
      modifies this
      ensures Counted() && View() == Release(old(View()), ts)
    {
      var i := 0;
      while i < |owners| && owners[i].ts != ts
        invariant 0 <= i <= |owners| && forall j :: 0 <= j < i ==> owners[j].ts != ts
      {
        i := i + 1;
      }
      if i < |owners| {
        WithoutFirst(owners, ts, i);
        owners := owners[..i] + owners[i + 1..];
        ownerCnt := ownerCnt - 1;
        if ownerCnt == 0 {
          lockType := LOCK_NONE;
        }
      } else {
        i := 0;
        while i < |waiters| && waiters[i].ts != ts
          invariant 0 <= i <= |waiters| && forall j :: 0 <= j < i ==> waiters[j].ts != ts
        {
          i := i + 1;
        }
        WithoutFirst(waiters, ts, i);
        waiters := waiters[..i] + waiters[i + 1..];
        waiterCnt := waiterCnt - 1;
      }
      while waiters != [] && !ConflictLock(lockType, waiters[0].kind)
        invariant Counted() && Promote(View()) == Promote(Remove(old(View()), ts))
        decreases |waiters|
      {
        var entry := waiters[0];
        waiters := waiters[1..];
        owners := [entry] + owners;
        ownerCnt, waiterCnt := ownerCnt + 1, waiterCnt - 1;
        lockType := entry.kind;
      }
    }
  }

  lemma {:induction false} WithoutFirst(s: seq<Entry>, ts: nat, k: nat)
    requires k < |s| && s[k].ts == ts && forall j :: 0 <= j < k ==> s[j].ts != ts
    ensures Without(s, ts) == s[..k] + s[k + 1..]
  {
    if k > 0 {
      WithoutFirst(s[1..], ts, k - 1);
      assert s[..k] == [s[0]] + s[1..][..k - 1] && s[k + 1..] == s[1..][k..];
    }
  }

  // ----- all rows together

  datatype Request = GetLock(row: nat, entry: Entry) | ReleaseLock(row: nat, ts: nat)

  /** What the callers of the lock manager must respect. */
  predicate Allowed(rows: seq<Lock>, q: Request) {
    && q.row < |rows|
    && match q
       case GetLock(r, e) => e.kind != LOCK_NONE && !Holds(rows[r], e.ts) && !Waits(rows[r], e.ts)
       case ReleaseLock(r, ts) => Holds(rows[r], ts) || Waits(rows[r], ts)
  }

  function Apply(rows: seq<Lock>, q: Request): seq<Lock>
    requires Allowed(rows, q)
  {
    match q
    case GetLock(r, e) => rows[r := Get(rows[r], e).0]
    case ReleaseLock(r, ts) => rows[r := Release(rows[r], ts)]
  }

  /** The rows after a list of requests on `n` free rows; None when a request is not allowed. */
  function Run(n: nat, requests: seq<Request>): Option<seq<Lock>> {
    if requests == [] then Some(seq(n, i => Lock(LOCK_NONE, [], [])))
    else
      match Run(n, requests[..|requests| - 1])
      case None => None
      case Some(rows) =>
        var q := requests[|requests| - 1];
        if Allowed(rows, q) then Some(Apply(rows, q)) else None
  }

  lemma {:induction false} RunValid(n: nat, requests: seq<Request>)
    requires Run(n, requests).Some?
    ensures forall r :: 0 <= r < |Run(n, requests).value| ==> Valid(Run(n, requests).value[r])
  {
    if requests != [] {
      RunValid(n, requests[..|requests| - 1]);
      var before := Run(n, requests[..|requests| - 1]).value;
      match requests[|requests| - 1]
      case GetLock(r, e) => GetValid(before[r], e);
      case ReleaseLock(r, ts) => ReleaseValid(before[r], ts);
    }
  }

  /** On row `l`, `t` waits for an owner or for a waiter in front of it. */
  predicate BlockedBy(l: Lock, t: nat, u: nat) {
    exists i :: 0 <= i < |l.waiters| && l.waiters[i].ts == t &&
      ((exists j :: 0 <= j < |l.owners| && l.owners[j].ts == u) || (exists j :: 0 <= j < i && l.waiters[j].ts == u))
  }

  predicate WaitsFor(rows: seq<Lock>, t: nat, u: nat) {
    exists r :: 0 <= r < |rows| && BlockedBy(rows[r], t, u)
  }

  /**
   * Deadlock freedom: whatever was requested and released on all the rows, no circle of
   * transactions waits for each other.
   */
  lemma NoDeadlock(n: nat, requests: seq<Request>, circle: seq<nat>)
    requires Run(n, requests).Some? && |circle| > 0
    ensures exists i :: 0 <= i < |circle| && !WaitsFor(Run(n, requests).value, circle[i], circle[if i + 1 < |circle| then i + 1 else 0])
  {
    RunValid(n, requests);
    var rows := Run(n, requests).value;
    if forall i :: 0 <= i < |circle| ==> WaitsFor(rows, circle[i], circle[if i + 1 < |circle| then i + 1 else 0]) {
      forall i | 0 <= i < |circle|
        ensures circle[i] < circle[if i + 1 < |circle| then i + 1 else 0]
      {
        assert WaitsFor(rows, circle[i], circle[if i + 1 < |circle| then i + 1 else 0]);
      }
      Climbs(circle, |circle| - 1);
      assert false;
    }
  }

  lemma {:induction false} Climbs(s: seq<nat>, k: nat)
    requires k < |s| && forall i :: 0 <= i < |s| - 1 ==> s[i] < s[if i + 1 < |s| then i + 1 else 0]
    ensures s[0] <= s[k]
  {
    if k > 0 {
      Climbs(s, k - 1);
      assert s[k - 1] < s[if k - 1 + 1 < |s| then k - 1 + 1 else 0];
    }
  }

  /** Nobody waits without reason: where there are waiters, there are owners the first one conflicts with. */
  lemma HeadIsBlocked(n: nat, requests: seq<Request>, r: nat)
    requires Run(n, requests).Some? && r < |Run(n, requests).value| && Run(n, requests).value[r].waiters != []
    ensures var l := Run(n, requests).value[r];
            l.owners != [] && forall j :: 0 <= j < |l.owners| ==> ConflictLock(l.owners[j].kind, l.waiters[0].kind)
  {
    RunValid(n, requests);
    assert Valid(Run(n, requests).value[r]);
  }
}
