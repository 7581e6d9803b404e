/**
 * The partition locks (trusted/concurrency_control/plock.cpp): each partition has one owner and
 * waiters younger than it; a transaction is named by its timestamp.
 */
module PartLock {
  import opened Wrappers

  datatype Part = Part(owner: Option<nat>, waiters: seq<nat>)

  datatype Outcome = Granted | Wait | Abort

  // ----- one partition

  predicate Ascending(w: seq<nat>) {
    forall i, j :: 0 <= i < j < |w| ==> w[i] < w[j]
  }

  /** The owner is older than all waiters, who stand in the order of their timestamps. */
  predicate PartOK(p: Part) {
    && Ascending(p.waiters)
    && (p.owner == None ==> p.waiters == [])
    && (p.owner.Some? ==> forall i :: 0 <= i < |p.waiters| ==> p.owner.value < p.waiters[i])
  }

  predicate In(p: Part, t: nat) {
    p.owner == Some(t) || t in p.waiters
  }

  /** From the end towards the front, up to the first waiter that is older. */
  function Inserted(w: seq<nat>, t: nat): (r: seq<nat>)
    ensures |r| == |w| + 1
  {
    if w == [] then [t]
    else if t > w[|w| - 1] then w + [t]
    else Inserted(w[..|w| - 1], t) + [w[|w| - 1]]
  }

  function Removed(w: seq<nat>, t: nat): (r: seq<nat>)
  {
    if w == [] then [] else if w[0] == t then w[1..] else [w[0]] + Removed(w[1..], t)
  }

  function Try(p: Part, t: nat): Outcome {
    if p.owner == None then Granted else if p.owner.value < t then Wait else Abort
  }

  function Locked(p: Part, t: nat): Part {
    match Try(p, t)
    case Granted => p.(owner := Some(t))
    case Wait => p.(waiters := Inserted(p.waiters, t))
    case Abort => p
  }

  function Unlocked(p: Part, t: nat): Part {
    if p.owner == Some(t) then
      if p.waiters == [] then p.(owner := None) else Part(Some(p.waiters[0]), p.waiters[1..])
    else p.(waiters := Removed(p.waiters, t))
  }

  lemma {:induction false} InsertedOK(w: seq<nat>, t: nat)
    requires Ascending(w) && t !in w
    ensures Ascending(Inserted(w, t)) && forall x :: x in Inserted(w, t) <==> x in w || x == t
  {
    if w != [] {
      var n := |w| - 1;
      assert w == w[..n] + [w[n]];
      if !(t > w[n]) {
        InsertedOK(w[..n], t);
        var r := Inserted(w[..n], t);
        assert w[n] in w;
        forall i | 0 <= i < |r|
          ensures r[i] < w[n]
        {
          assert r[i] in r;
        }
      }
    }
  }

  lemma {:induction false} RemovedOK(w: seq<nat>, t: nat)
    requires Ascending(w)
    ensures Ascending(Removed(w, t)) && forall x :: x in Removed(w, t) <==> x in w && x != t
  {
    if w != [] {
      assert w == [w[0]] + w[1..];
      RemovedOK(w[1..], t);
      var r := Removed(w[1..], t);
      forall i | 0 <= i < |r|
        ensures w[0] < r[i]
      {
        assert r[i] in r;
        var j :| 0 <= j < |w[1..]| && w[1..][j] == r[i];
      }
    }
  }

  lemma LockedOK(p: Part, t: nat)
    requires PartOK(p) && !In(p, t)
    ensures forall x :: In(Locked(p, t), x) <==> In(p, x) || (x == t && Try(p, t) != Abort)
    ensures forall x :: x in Locked(p, t).waiters <==> x in p.waiters || (x == t && Try(p, t) == Wait)
    ensures PartOK(Locked(p, t))
  {
    if Try(p, t) == Wait {
      InsertedOK(p.waiters, t);
      var w := Inserted(p.waiters, t);
      assert forall i :: 0 <= i < |w| ==> w[i] in w;
    }
  }

  /** Who waits after an unlock: not `t`, and not the one it hands the partition to. */
  lemma UnlockedOK(p: Part, t: nat)
    requires PartOK(p) && In(p, t)
    ensures PartOK(Unlocked(p, t))
    ensures forall x :: In(Unlocked(p, t), x) <==> In(p, x) && x != t
    ensures forall x :: x in Unlocked(p, t).waiters <==> x in p.waiters && x != t && Unlocked(p, t).owner != Some(x)
  {
    if p.owner == Some(t) {
      if p.waiters != [] {
        assert p.waiters == [p.waiters[0]] + p.waiters[1..];
      }
    } else {
      RemovedOK(p.waiters, t);
      var w := Removed(p.waiters, t);
      assert forall i :: 0 <= i < |w| ==> w[i] in w;
    }
  }

  // ----- the waiter array

  /** Waiters not older than `t` move up by one. */
  method InsertWaiter(a: array<nat>, cnt: nat, t: nat)
    requires cnt < a.Length
    modifies a
    ensures a[..cnt + 1] == Inserted(old(a[..cnt]), t)
  {
    ghost var w := a[..cnt];
    var i := cnt;
    assert w[..cnt] == w && a[cnt + 1..cnt + 1] == [];
    while i > 0 && !(t > a[i - 1])
      invariant 0 <= i <= cnt
      invariant a[..i] == w[..i]
      invariant Inserted(w[..i], t) + a[i + 1..cnt + 1] == Inserted(w, t)
    {
      ghost var tail := a[i + 1..cnt + 1];
      InsertedStep(w, t, i, tail);
      a[i] := a[i - 1];
      assert a[i..cnt + 1] == [w[i - 1]] + tail;
      i := i - 1;
    }
    ghost var tail := a[i + 1..cnt + 1];
    assert i > 0 ==> a[..i][i - 1] == w[..i][i - 1];
    assert Inserted(w[..i], t) == w[..i] + [t];
    a[i] := t;
    assert a[..cnt + 1] == a[..i] + [t] + a[i + 1..cnt + 1];
  }

  lemma InsertedStep(w: seq<nat>, t: nat, i: nat, tail: seq<nat>)
    requires 0 < i <= |w| && !(t > w[i - 1])
    ensures Inserted(w[..i], t) + tail == Inserted(w[..i - 1], t) + ([w[i - 1]] + tail)
  {
    assert w[..i][..i - 1] == w[..i - 1];
  }

  /** The first waiter leaves. */
  method ShiftDown(a: array<nat>, cnt: nat)
    requires 1 <= cnt <= a.Length
    modifies a
    ensures a[..cnt - 1] == old(a[1..cnt])
  {
    ghost var w := a[..cnt];
    var i := 0;
    while i < cnt - 1
      invariant 0 <= i <= cnt - 1
      invariant forall j :: 0 <= j < i ==> a[j] == w[j + 1]
      invariant forall j :: i <= j < cnt ==> a[j] == w[j]
    {
      a[i] := a[i + 1];
      i := i + 1;
    }
  }

  /** Waiter `t` leaves, wherever it stands. */
  method RemoveWaiter(a: array<nat>, cnt: nat, t: nat) returns (find: bool)
    requires 1 <= cnt <= a.Length
    modifies a
    ensures find <==> t in old(a[..cnt])
    ensures find ==> a[..cnt - 1] == Removed(old(a[..cnt]), t)
  {
    ghost var w := a[..cnt];
    ghost var k := 0;
    find := false;
    var i := 0;
    while i < cnt
      invariant 0 <= i <= cnt && 0 <= k <= i
      invariant forall j :: 0 <= j < k ==> a[j] == w[j] != t
      invariant find ==> k < i && w[k] == t && forall j :: k <= j < i && j < cnt - 1 ==> a[j] == w[j + 1]
      invariant !find ==> k == i
      invariant forall j :: i <= j < cnt ==> a[j] == w[j]
    {
      if a[i] == t {
        find := true;
      }
      if !find {
        k := k + 1;
      }
      if find && i < cnt - 1 {
        a[i] := a[i + 1];
      }
      i := i + 1;
    }
    if find {
      RemovedAt(w, t, k);
      ghost var r := w[..k] + w[k + 1..];
      assert |r| == cnt - 1 && forall j :: 0 <= j < cnt - 1 ==> a[j] == r[j];
      assert a[..cnt - 1] == r;
    } else {
      assert forall j :: 0 <= j < |w| ==> w[j] != t;
    }
  }

  lemma {:induction false} RemovedAt(w: seq<nat>, t: nat, k: nat)
    requires k < |w| && w[k] == t && forall j :: 0 <= j < k ==> w[j] != t
    ensures Removed(w, t) == w[..k] + w[k + 1..]
  {
    if k > 0 {
      RemovedAt(w[1..], t, k - 1);
      assert [w[0]] + (w[1..][..k - 1] + w[1..][k..]) == w[..k] + w[k + 1..];
    }
  }

  /** PartMan: the owner and a fixed array of waiters, shifted in place. */
  class PartMan {
    var owner: Option<nat>
    const waiters: array<nat>
    var waiterCnt: nat

    ghost predicate Valid()
      reads this, waiters
    {
      waiterCnt <= waiters.Length && PartOK(Value())
    }

    ghost function Value(): Part
      requires waiterCnt <= waiters.Length
      reads this, waiters
    {
      Part(owner, waiters[..waiterCnt])
    }

    constructor (threadCnt: nat)
      ensures Valid() && fresh(waiters) && waiters.Length == threadCnt && Value() == Part(None, [])
    {
      owner, waiters, waiterCnt := None, new nat[threadCnt], 0;
    }

    /** lock; `ready` is the transaction's count of partitions it waits for. */
    method Lock(t: nat) returns (r: Outcome, ready: int)
      requires Valid() && !In(Value(), t) && (Try(Value(), t) == Wait ==> waiterCnt < waiters.Length)
      modifies this, waiters
      ensures Valid() && r == Try(old(Value()), t) && Value() == Locked(old(Value()), t)
      ensures ready == if r == Wait then 1 else 0
    {
      LockedOK(Value(), t);
      ready := 0;
      if owner == None {
        owner := Some(t);
        r := Granted;
      } else if owner.value < t {
        InsertWaiter(waiters, waiterCnt, t);
        waiterCnt := waiterCnt + 1;
        ready := 1;
        r := Wait;
      } else {
        r := Abort;
      }
    }

    /** unlock, by its owner or one of its waiters; `fewer` waits for one partition less. */
    method Unlock(t: nat) returns (fewer: Option<nat>)
      requires Valid() && In(Value(), t)
      modifies this, waiters
      ensures Valid() && Value() == Unlocked(old(Value()), t)
      ensures fewer == if old(owner) != Some(t) then Some(t) else owner
    {
      UnlockedOK(Value(), t);
      if owner == Some(t) {
        if waiterCnt == 0 {
          owner := None;
        } else {
          owner := Some(waiters[0]);
          ShiftDown(waiters, waiterCnt);
          waiterCnt := waiterCnt - 1;
        }
        fewer := owner;
      } else {
        var find := RemoveWaiter(waiters, waiterCnt, t);
        fewer := Some(t);
        assert find;
        waiterCnt := waiterCnt - 1;
      }
    }
  }
}
