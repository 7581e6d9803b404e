/**
 * The loops that open validation: the bubble sort of the accessed rows
 * (trusted/concurrency_control/occ.cpp:42-52, silo.cpp:24-34, tictoc.cpp:24-34) and the
 * computation of TicToc's commit timestamp (tictoc.cpp:53-67).
 */
module Validation {
  import TicToc

  // ----- sorting

  ghost predicate SortedBy(s: seq<nat>, key: nat -> nat) {
    forall i, j :: 0 <= i < j < |s| ==> key(s[i]) <= key(s[j])
  }

  predicate Rearranged(s: seq<nat>, r: seq<nat>) {
    multiset(s) == multiset(r)
  }

  function Swapped(s: seq<nat>, i: nat): seq<nat>
    requires i + 1 < |s|
  {
    s[i := s[i + 1]][i + 1 := s[i]]
  }

  lemma SwapRearranges(s: seq<nat>, t: seq<nat>, i: nat)
    requires Rearranged(s, t) && i + 1 < |t|
    ensures Rearranged(s, Swapped(t, i))
  {
    assert multiset(Swapped(t, i)) == multiset(t);
  }

  predicate Below(s: seq<nat>, key: nat -> nat, b: nat) {
    forall k :: 0 <= k < |s| ==> key(s[k]) <= b
  }

  lemma SwapBelow(s: seq<nat>, i: nat, key: nat -> nat, b: nat)
    requires i + 1 < |s| && Below(s, key, b)
    ensures Below(Swapped(s, i), key, b)
  {
  }

  /** `t` has no element beyond a bound of `s`. */
  ghost predicate Bounded(s: seq<nat>, t: seq<nat>, key: nat -> nat) {
    forall b: nat :: Below(s, key, b) ==> Below(t, key, b)
  }

  lemma SwapBounded(s: seq<nat>, t: seq<nat>, i: nat, key: nat -> nat)
    requires i + 1 < |t| && Bounded(s, t, key)
    ensures Bounded(s, Swapped(t, i), key)
  {
    forall b: nat | Below(s, key, b)
      ensures Below(Swapped(t, i), key, b)
    {
      SwapBelow(t, i, key, b);
    }
  }

  /** One comparison of neighbours. */
  method Exchange(a: array<nat>, key: nat -> nat, j: nat, n: nat)
    requires j < n < a.Length && Below(a[..j + 1], key, key(a[j]))
    modifies a
    ensures a[..] == old(a[..]) || a[..] == Swapped(old(a[..]), j)
    ensures a[..n + 1] == old(a[..n + 1]) || a[..n + 1] == Swapped(old(a[..n + 1]), j)
    ensures Below(a[..j + 2], key, key(a[j + 1]))
    ensures forall k :: n < k < a.Length ==> a[k] == old(a[k])
  {
    assert forall k :: 0 <= k <= j ==> a[..j + 1][k] == a[k];
    if key(a[j]) > key(a[j + 1]) {
      a[j], a[j + 1] := a[j + 1], a[j];
    }
  }

  /** One pass carries the largest of the first `n + 1` elements to position `n`. */
  method Bubble(a: array<nat>, key: nat -> nat, n: nat)
    requires n < a.Length
    modifies a
    ensures Rearranged(old(a[..]), a[..]) && Bounded(old(a[..n + 1]), a[..n + 1], key)
    ensures Below(a[..n + 1], key, key(a[n]))
    ensures forall k :: n < k < a.Length ==> a[k] == old(a[k])
  {
    var j := 0;
    while j < n
      invariant 0 <= j <= n && Rearranged(old(a[..]), a[..]) && Bounded(old(a[..n + 1]), a[..n + 1], key)
      invariant Below(a[..j + 1], key, key(a[j]))
      invariant forall k :: n < k < a.Length ==> a[k] == old(a[k])
    {
      SwapRearranges(old(a[..]), a[..], j);
      SwapBounded(old(a[..n + 1]), a[..n + 1], j, key);
      Exchange(a, key, j, n);
      j := j + 1;
    }
  }

  /** A pass over the first `i + 1` elements leaves those behind it the largest. */
  lemma StillBelow(s: seq<nat>, t: seq<nat>, key: nat -> nat, i: nat, l: nat)
    requires i < l < |s| == |t| && Below(s[..l + 1], key, key(s[l])) && Bounded(s[..i + 1], t[..i + 1], key)
    requires forall k :: i < k < |s| ==> t[k] == s[k]
    ensures Below(t[..l + 1], key, key(t[l]))
  {
    assert s[..l + 1][..i + 1] == s[..i + 1];
    BelowPrefix(s[..l + 1], key, key(s[l]), i + 1);
    assert Below(t[..i + 1], key, key(s[l]));
    assert t[..l + 1] == t[..i + 1] + s[..l + 1][i + 1..];
    BelowSuffix(s[..l + 1], key, key(s[l]), i + 1);
    BelowConcat(t[..i + 1], s[..l + 1][i + 1..], key, key(s[l]));
  }

  lemma BelowPrefix(s: seq<nat>, key: nat -> nat, b: nat, n: nat)
    requires n <= |s| && Below(s, key, b)
    ensures Below(s[..n], key, b)
  {
  }

  lemma BelowSuffix(s: seq<nat>, key: nat -> nat, b: nat, n: nat)
    requires n <= |s| && Below(s, key, b)
    ensures Below(s[n..], key, b)
  {
  }

  lemma BelowConcat(s: seq<nat>, t: seq<nat>, key: nat -> nat, b: nat)
    requires Below(s, key, b) && Below(t, key, b)
    ensures Below(s + t, key, b)
  {
  }

  /** The accesses in ascending order of their rows' keys, none lost and none twice. */
  method SortAccesses(a: array<nat>, key: nat -> nat)
    modifies a
    ensures SortedBy(a[..], key) && Rearranged(old(a[..]), a[..])
  {
    var i := a.Length - 1;
    while i >= 1
      invariant -1 <= i <= a.Length - 1 && Rearranged(old(a[..]), a[..])
      invariant forall l :: i < l < a.Length ==> Below(a[..l + 1], key, key(a[l]))
    {
      ghost var s := a[..];
      Bubble(a, key, i);
      forall l | i < l < a.Length
        ensures Below(a[..l + 1], key, key(a[l]))
      {
        assert a[..][l] == s[l];
        StillBelow(s, a[..], key, i, l);
        assert a[..][..l + 1] == a[..l + 1] && a[..][..i + 1] == a[..i + 1];
      }
      i := i - 1;
    }
    forall k, l | 0 <= k < l < a.Length
      ensures key(a[k]) <= key(a[l])
    {
      assert Below(a[..l + 1], key, key(a[l]));
      assert a[..l + 1][k] == a[k];
    }
  }

  // ----- the commit timestamp

  datatype Access = Access(row: nat, write: bool, acc: TicToc.Acc)

  function Part(s: seq<Access>, write: bool): (m: map<nat, TicToc.Acc>)
    ensures forall r :: r in m ==> exists i :: 0 <= i < |s| && s[i].row == r && s[i].write == write
  {
    if s == [] then map[]
    else
      var m, x := Part(s[..|s| - 1], write), s[|s| - 1];
      if x.write == write then m[x.row := x.acc] else m
  }

  predicate DistinctRows(s: seq<Access>) {
    forall i, j :: 0 <= i < j < |s| ==> s[i].row != s[j].row
  }

  predicate IsMaxWts(m: map<nat, TicToc.Acc>, v: nat) {
    (forall r :: r in m ==> m[r].wts <= v) && (v == 0 || exists r :: r in m && m[r].wts == v)
  }

  predicate IsMaxRts(m: map<nat, TicToc.Acc>, v: nat) {
    (forall r :: r in m ==> m[r].rts < v) && (v == 0 || exists r :: r in m && m[r].rts + 1 == v)
  }

  lemma MoreWts(m: map<nat, TicToc.Acc>, v: nat, r: nat, x: TicToc.Acc)
    requires IsMaxWts(m, v) && r !in m
    ensures IsMaxWts(m[r := x], if x.wts > v then x.wts else v)
  {
    if v != 0 {
      var q :| q in m && m[q].wts == v;
      assert m[r := x][q].wts == v;
    }
    assert m[r := x][r] == x;
  }

  lemma MoreRts(m: map<nat, TicToc.Acc>, v: nat, r: nat, x: TicToc.Acc)
    requires IsMaxRts(m, v) && r !in m
    ensures IsMaxRts(m[r := x], if x.rts + 1 > v then x.rts + 1 else v)
  {
    if v != 0 {
      var q :| q in m && m[q].rts + 1 == v;
      assert m[r := x][q].rts + 1 == v;
    }
    assert m[r := x][r] == x;
  }

  lemma PartStep(s: seq<Access>, n: nat, write: bool)
    requires n < |s| && DistinctRows(s)
    ensures s[n].row !in Part(s[..n], write)
    ensures Part(s[..n + 1], write) == if s[n].write == write then Part(s[..n], write)[s[n].row := s[n].acc] else Part(s[..n], write)
  {
    assert s[..n + 1][..n] == s[..n];
  }

  /** Both commit timestamps end up as the one that TicToc's serial order is built on. */
  method CommitTs(accesses: seq<Access>) returns (commitRts: nat, commitWts: nat)
    requires DistinctRows(accesses)
    ensures commitRts == commitWts && TicToc.IsCommitTs(Part(accesses, false), Part(accesses, true), commitWts)
  {
    commitRts, commitWts := 0, 0;
    var i := 0;
    while i < |accesses|
      invariant 0 <= i <= |accesses| && IsMaxWts(Part(accesses[..i], false), commitRts) && IsMaxRts(Part(accesses[..i], true), commitWts)
    {
      var x := accesses[i];
      PartStep(accesses, i, false);
      PartStep(accesses, i, true);
      MoreWts(Part(accesses[..i], false), commitRts, x.row, x.acc);
      MoreRts(Part(accesses[..i], true), commitWts, x.row, x.acc);
      if !x.write && x.acc.wts > commitRts {
        commitRts := x.acc.wts;
      } else if x.write && x.acc.rts + 1 > commitWts {
        commitWts := x.acc.rts + 1;
      }
      i := i + 1;
    }
    assert accesses[..i] == accesses;
    if commitRts > commitWts {
      commitWts := commitRts;
    } else {
      commitRts := commitWts;
    }
  }
}
