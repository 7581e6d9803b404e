/**
 * What a request to the wait-die row lock is answered, and that nobody else is moved by it: the
 * exact conditions of row_lock.cpp:63-135 in terms of owners and waiters, and who is on a row
 * after any run of requests.
 */
module WaitDieExact {
  import opened Wrappers
  import opened WaitDie

  // ----- the answer

  predicate ConflictsWithOwner(l: Lock, e: Entry) {
    exists i :: 0 <= i < |l.owners| && ConflictLock(l.owners[i].kind, e.kind)
  }

  predicate OlderOwner(l: Lock, e: Entry) {
    exists i :: 0 <= i < |l.owners| && l.owners[i].ts < e.ts
  }

  predicate YoungerWaiter(l: Lock, e: Entry) {
    exists i :: 0 <= i < |l.waiters| && e.ts < l.waiters[i].ts
  }

  /** Nobody on the row yet. */
  predicate Newcomer(l: Lock, e: Entry) {
    e.kind != LOCK_NONE && !Holds(l, e.ts) && !Waits(l, e.ts)
  }

  /**
   * Granted exactly without a conflict with an owner and without a younger waiter, refused
   * exactly with a conflict and an older owner, and made to wait otherwise.
   */
  lemma GetExact(l: Lock, e: Entry)
    requires Valid(l) && Newcomer(l, e)
    ensures Get(l, e).1 == RCOK <==> !ConflictsWithOwner(l, e) && !YoungerWaiter(l, e)
    ensures Get(l, e).1 == Abort <==> ConflictsWithOwner(l, e) && OlderOwner(l, e)
  {
    if ConflictLock(l.kind, e.kind) {
      assert ConflictLock(l.owners[0].kind, e.kind);
    }
    assert l.waiters != [] && e.ts < l.waiters[0].ts ==> YoungerWaiter(l, e);
    if OlderOwner(l, e) {
      var i :| 0 <= i < |l.owners| && l.owners[i].ts < e.ts;
      assert forall j :: 0 <= j < |l.waiters| ==> l.waiters[j].ts < l.owners[i].ts;
    }
  }

  /** `m` is `l` with `e` added: without `e`, both lists are what they were. */
  predicate Adds(l: Lock, e: Entry, m: Lock) {
    && Without(m.owners, e.ts) == l.owners && Without(m.waiters, e.ts) == l.waiters
    && Entries(m) == Entries(l) + multiset{e}
  }

  /** The others keep their places. */
  lemma GetKeeps(l: Lock, e: Entry)
    requires Newcomer(l, e)
    ensures if Get(l, e).1 == Abort then Get(l, e).0 == l else Adds(l, e, Get(l, e).0)
  {
    if Get(l, e).1 == RCOK {
      GrantAdds(l, e);
    } else if Get(l, e).1 == WAIT {
      WaitAdds(l, e, Ahead(l.waiters, e.ts));
    }
  }

  lemma GrantAdds(l: Lock, e: Entry)
    requires !Holds(l, e.ts) && !Waits(l, e.ts)
    ensures Adds(l, e, Lock(e.kind, [e] + l.owners, l.waiters))
  {
    WithoutNone(l.waiters, e.ts);
    InsertedKeeps(l.owners, e, 0);
    assert l.owners[..0] + [e] + l.owners[0..] == [e] + l.owners;
  }

  lemma WaitAdds(l: Lock, e: Entry, n: nat)
    requires !Holds(l, e.ts) && !Waits(l, e.ts) && n <= |l.waiters|
    ensures Adds(l, e, l.(waiters := l.waiters[..n] + [e] + l.waiters[n..]))
  {
    WithoutNone(l.owners, e.ts);
    InsertedKeeps(l.waiters, e, n);
  }

  lemma InsertedKeeps(s: seq<Entry>, e: Entry, n: nat)
    requires n <= |s| && forall i :: 0 <= i < |s| ==> s[i].ts != e.ts
    ensures var w := s[..n] + [e] + s[n..]; Without(w, e.ts) == s && multiset(w) == multiset(s) + multiset{e}
  {
    var w := s[..n] + [e] + s[n..];
    assert forall i :: 0 <= i < n ==> w[i] == s[i];
    WithoutFirst(w, e.ts, n);
    assert w[..n] + w[n + 1..] == s;
    assert s[..n] + s[n..] == s;
  }

  lemma {:induction false} WithoutNone(s: seq<Entry>, ts: nat)
    requires forall i :: 0 <= i < |s| ==> s[i].ts != ts
    ensures Without(s, ts) == s
  {
    if s != [] { WithoutNone(s[1..], ts); }
  }

  // ----- a release

  function Reversed(s: seq<Entry>): seq<Entry> {
    if s == [] then [] else Reversed(s[1..]) + [s[0]]
  }

  /** Waiters join the owners from the head on, one by one, and the rest stay as they stand. */
  lemma {:induction false} PromotePrefix(l: Lock) returns (k: nat)
    ensures k <= |l.waiters| && Promote(l).waiters == l.waiters[k..]
    ensures Promote(l).owners == Reversed(l.waiters[..k]) + l.owners
    decreases |l.waiters|
  {
    if l.waiters == [] || ConflictLock(l.kind, l.waiters[0].kind) {
      k := 0;
    } else {
      var j := PromotePrefix(Joined(l));
      k := j + 1;
      assert l.waiters[1..][j..] == l.waiters[k..];
      assert l.waiters[..k][1..] == l.waiters[1..][..j] && l.waiters[..k][0] == l.waiters[0];
    }
  }

  /** After a release the row holds the others, with a part of the waiters, from the head on, among the owners. */
  lemma ReleaseExact(l: Lock, ts: nat) returns (k: nat)
    requires Valid(l) && (Holds(l, ts) || Waits(l, ts))
    ensures var w := Without(l.waiters, ts);
      k <= |w| && Release(l, ts).waiters == w[k..] && Release(l, ts).owners == Reversed(w[..k]) + Without(l.owners, ts)
  {
    k := PromotePrefix(Remove(l, ts));
    if Holds(l, ts) {
      var i :| 0 <= i < |l.owners| && l.owners[i].ts == ts;
      assert forall j :: 0 <= j < |l.waiters| ==> l.waiters[j].ts < l.owners[i].ts;
      WithoutNone(l.waiters, ts);
    } else {
      WithoutNone(l.owners, ts);
    }
  }

  // ----- who is on a row after any run

  predicate On(l: Lock, e: Entry) {
    e in l.owners || e in l.waiters
  }

  /**
   * Who should be on row `r`: everybody who asked for it and was not refused, until its release.
   * A refusal is a conflict with an owner while some owner is older.
   */
  function Present(n: nat, requests: seq<Request>, r: nat): map<nat, LockType> {
    if requests == [] then map[]
    else
      var before, q := requests[..|requests| - 1], requests[|requests| - 1];
      var p := Present(n, before, r);
      if Run(n, before).None? || q.row != r || r >= |Run(n, before).value| then p
      else
        match q
        case GetLock(_, e) =>
          var l := Run(n, before).value[r];
          if ConflictsWithOwner(l, e) && OlderOwner(l, e) then p else p[e.ts := e.kind]
        case ReleaseLock(_, ts) => p - {ts}
  }

  lemma OnIsEntry(l: Lock, x: Entry)
    ensures On(l, x) <==> Entries(l)[x] > 0
  {
  }

  lemma OnAfterGet(l: Lock, e: Entry, x: Entry)
    requires Newcomer(l, e)
    ensures On(Get(l, e).0, x) <==> On(l, x) || (x == e && Get(l, e).1 != Abort)
  {
    GetKeeps(l, e);
    OnIsEntry(l, x);
    OnIsEntry(Get(l, e).0, x);
  }

  lemma GoneOn(l: Lock, x: Entry)
    requires Gone(l, x.ts)
    ensures !On(l, x)
  {
  }

  lemma OnAfterRelease(l: Lock, ts: nat, x: Entry)
    requires Valid(l) && (Holds(l, ts) || Waits(l, ts))
    ensures On(Release(l, ts), x) <==> On(l, x) && x.ts != ts
  {
    ReleaseValid(l, ts);
    if x.ts == ts {
      GoneOn(Release(l, ts), x);
    } else {
      StaysOn(l, ts, x);
    }
  }

  lemma StaysOn(l: Lock, ts: nat, x: Entry)
    requires Valid(l) && (Holds(l, ts) || Waits(l, ts)) && x.ts != ts
    ensures On(Release(l, ts), x) <==> On(l, x)
  {
    var e := ReleaseKeepsOthers(l, ts);
    OnIsEntry(l, x);
    OnIsEntry(Release(l, ts), x);
    assert (Entries(Release(l, ts)) + multiset{e})[x] == Entries(Release(l, ts))[x];
  }

  ghost predicate Matches(l: Lock, p: map<nat, LockType>) {
    forall x: Entry :: On(l, x) <==> x.ts in p && p[x.ts] == x.kind
  }

  /** After any run exactly those are on each row, and each with what it asked for. */
  lemma {:induction false} RunPresent(n: nat, requests: seq<Request>, r: nat)
    requires Run(n, requests).Some? && r < n
    ensures |Run(n, requests).value| == n && Matches(Run(n, requests).value[r], Present(n, requests, r))
  {
    if requests != [] {
      var before, q := requests[..|requests| - 1], requests[|requests| - 1];
      RunPresent(n, before, r);
      RunValid(n, before);
      if q.row == r { StepPresent(n, before, q, r); }
    }
  }

  lemma StepPresent(n: nat, before: seq<Request>, q: Request, r: nat)
    requires Run(n, before).Some? && r < |Run(n, before).value| && q.row == r && Allowed(Run(n, before).value, q)
    requires Valid(Run(n, before).value[r]) && Matches(Run(n, before).value[r], Present(n, before, r))
    ensures Matches(Apply(Run(n, before).value, q)[r], Present(n, before + [q], r))
  {
    var l := Run(n, before).value[r];
    assert (before + [q])[..|before|] == before;
    match q
    case GetLock(_, e) =>
      GetExact(l, e);
      forall x: Entry ensures On(Get(l, e).0, x) <==> On(l, x) || (x == e && Get(l, e).1 != Abort) { OnAfterGet(l, e, x); }
      NotPresent(l, e.ts, Present(n, before, r));
    case ReleaseLock(_, ts) =>
      forall x: Entry ensures On(Release(l, ts), x) <==> On(l, x) && x.ts != ts { OnAfterRelease(l, ts, x); }
  }

  lemma NotOn(l: Lock, x: Entry)
    requires !Holds(l, x.ts) && !Waits(l, x.ts)
    ensures !On(l, x)
  {
  }

  lemma NotPresent(l: Lock, ts: nat, p: map<nat, LockType>)
    requires Matches(l, p) && !Holds(l, ts) && !Waits(l, ts)
    ensures ts !in p
  {
    var x := Entry(ts, if ts in p then p[ts] else LOCK_NONE);
    NotOn(l, x);
    assert !On(l, x);
  }

  /** Nobody leaves a row but by its own release. */
  lemma LeavesByRelease(n: nat, before: seq<Request>, q: Request, r: nat, x: Entry)
    requires Run(n, before).Some? && Run(n, before + [q]).Some? && r < n
    ensures |Run(n, before).value| == n == |Run(n, before + [q]).value|
    ensures On(Run(n, before).value[r], x) && !On(Run(n, before + [q]).value[r], x) ==> q == ReleaseLock(r, x.ts)
  {
    assert (before + [q])[..|before|] == before;
    RunPresent(n, before, r);
    RunPresent(n, before + [q], r);
    RunValid(n, before);
    var l := Run(n, before).value[r];
    if q.row == r && q.GetLock? { OnAfterGet(l, q.entry, x); }
    if q.row == r && q.ReleaseLock? { OnAfterRelease(l, q.ts, x); }
  }
}
