/**
 * Waits-for cycle detection (trusted/concurrency_control/dl_detect.cpp): a depth-first search
 * over threads with a visited set, a recursion stack, and the choice of a victim while the
 * search unwinds through the cycle.
 */
module DlDetect {
  /** What one thread waits for; txnid -1 means that nothing is registered. */
  datatype DepThd = DepThd(adj: seq<nat>, txnid: int, numLocks: int)

  type Graph = seq<DepThd>

  /** `id` names the transaction currently registered at thread `v`. */
  predicate Live(g: Graph, id: nat, v: int) {
    0 <= v < |g| && id % |g| == v && g[v].txnid == id
  }

  /** Thread `u` waits for the live transaction of thread `v`. */
  predicate Edge(g: Graph, u: int, v: int) {
    0 <= u < |g| && exists n :: 0 <= n < |g[u].adj| && Live(g, g[u].adj[n], v)
  }

  predicate Path(g: Graph, p: seq<int>) {
    && |p| > 0
    && (forall i :: 0 <= i < |p| ==> 0 <= p[i] < |g|)
    && (forall i :: 0 <= i < |p| - 1 ==> Edge(g, p[i], p[i + 1]))
  }

  predicate Cycle(g: Graph, c: seq<int>) {
    Path(g, c) && Edge(g, c[|c| - 1], c[0])
  }

  /** A cycle of live edges can be reached from `u`. */
  ghost predicate Deadlocked(g: Graph, u: int) {
    exists p, c :: Path(g, p) && p[0] == u && Cycle(g, c) && p[|p| - 1] == c[0]
  }

  // ----- finished threads

  /** Finished threads, in finishing order: each waits only for threads finished before it. */
  predicate Finished(g: Graph, done: seq<int>) {
    && (forall i :: 0 <= i < |done| ==> 0 <= done[i] < |g|)
    && (forall i, v :: 0 <= i < |done| && 0 <= v < |g| && Edge(g, done[i], v) ==> v in done[..i])
  }

  /** Whatever live transaction `id` names, its thread is finished. */
  predicate Settled(g: Graph, id: nat, done: seq<int>) {
    |g| > 0 && (Live(g, id, id % |g|) ==> id % |g| in done)
  }

  /** The first `n` transactions that `thd` waits for are settled. */
  predicate AllSettled(g: Graph, thd: int, n: nat, done: seq<int>)
    requires 0 <= thd < |g| && n <= |g[thd].adj|
  {
    forall j :: 0 <= j < n ==> Settled(g, g[thd].adj[j], done)
  }

  lemma MoreSettled(g: Graph, thd: int, n: nat, done: seq<int>, later: seq<int>)
    requires 0 <= thd < |g| && n < |g[thd].adj| && done <= later
    requires AllSettled(g, thd, n, done) && Settled(g, g[thd].adj[n], later)
    ensures AllSettled(g, thd, n + 1, later)
  {
    forall j | 0 <= j < n ensures Settled(g, g[thd].adj[j], later) { assert Settled(g, g[thd].adj[j], done); }
  }

  /** Walking along edges goes down in finishing order. */
  lemma {:induction false} WalkDescends(g: Graph, done: seq<int>, p: seq<int>, i: nat) returns (j: nat)
    requires Finished(g, done) && Path(g, p) && i < |done| && p[0] == done[i]
    ensures j <= i && p[|p| - 1] == done[j] && (|p| > 1 ==> j < i)
  {
    if |p| == 1 {
      j := i;
    } else {
      var q := p[..|p| - 1];
      var k := WalkDescends(g, done, q, i);
      assert Edge(g, p[|p| - 2], p[|p| - 1]);
      assert p[|p| - 1] in done[..k];
      j :| 0 <= j < k && done[j] == p[|p| - 1];
    }
  }

  predicate Distinct(s: seq<int>) {
    forall i, j :: 0 <= i < j < |s| ==> s[i] != s[j]
  }

  /** A finished thread reaches no cycle. */
  lemma FinishedIsSafe(g: Graph, done: seq<int>, u: int)
    requires Finished(g, done) && Distinct(done) && u in done
    ensures !Deadlocked(g, u)
  {
    forall p, c | Path(g, p) && p[0] == u && Cycle(g, c) && p[|p| - 1] == c[0]
      ensures false
    {
      var i :| 0 <= i < |done| && done[i] == u;
      var j := WalkDescends(g, done, p, i);
      var around := c + [c[0]];
      assert forall k :: 0 <= k < |c| ==> Edge(g, around[k], around[k + 1]) by {
        forall k | 0 <= k < |c|
          ensures Edge(g, around[k], around[k + 1])
        {
          if k < |c| - 1 {
            assert Edge(g, c[k], c[k + 1]);
          }
        }
      }
      var m := WalkDescends(g, done, around, j);
    }
  }

  /** A path that bites its own tail shows a deadlock. */
  lemma PathWithBackEdge(g: Graph, p: seq<int>, k: nat)
    requires Path(g, p) && k < |p| && Edge(g, p[|p| - 1], p[k])
    ensures Cycle(g, p[k..]) && Deadlocked(g, p[0])
  {
    var c, q := p[k..], p[..k + 1];
    assert forall i :: 0 <= i < |c| - 1 ==> Edge(g, c[i], c[i + 1]) by {
      forall i | 0 <= i < |c| - 1 ensures Edge(g, c[i], c[i + 1]) { assert Edge(g, p[k + i], p[k + i + 1]); }
    }
    assert c[|c| - 1] == p[|p| - 1] && c[0] == p[k];
    assert Path(g, q) && q[0] == p[0] && q[|q| - 1] == c[0];
  }

  // ----- the victim

  /** The least lock count among `members` below 1000 and the id it belongs to; 1000 and -1 when there is none. */
  predicate IsVictim(g: Graph, members: seq<int>, locks: int, id: int)
    requires forall i :: 0 <= i < |members| ==> 0 <= members[i] < |g|
  {
    && (forall i :: 0 <= i < |members| ==> locks <= g[members[i]].numLocks)
    && ((locks == 1000 && id == -1) ||
        (locks < 1000 && exists i :: 0 <= i < |members| && g[members[i]].numLocks == locks && g[members[i]].txnid == id))
  }

  /** One more member at the front. */
  lemma VictimStep(g: Graph, u: int, members: seq<int>, locks: int, id: int)
    requires 0 <= u < |g| && forall i :: 0 <= i < |members| ==> 0 <= members[i] < |g|
    requires IsVictim(g, members, locks, id)
    ensures if g[u].numLocks < locks then IsVictim(g, [u] + members, g[u].numLocks, g[u].txnid)
            else IsVictim(g, [u] + members, locks, id)
  {
    var all := [u] + members;
    assert all[0] == u && forall i :: 0 <= i < |members| ==> all[i + 1] == members[i];
    if g[u].numLocks >= locks && locks < 1000 {
      var i :| 0 <= i < |members| && g[members[i]].numLocks == locks && g[members[i]].txnid == id;
      assert g[all[i + 1]].numLocks == locks && g[all[i + 1]].txnid == id;
    }
  }

  // ----- counting threads

  lemma {:induction false} DistinctBound(s: seq<int>, n: nat)
    requires Distinct(s) && forall i :: 0 <= i < |s| ==> 0 <= s[i] < n
    ensures |s| <= n
    decreases n
  {
    if s == [] {
    } else if n - 1 in s {
      var k :| 0 <= k < |s| && s[k] == n - 1;
      var t := s[..k] + s[k + 1..];
      assert forall i :: 0 <= i < |t| ==> t[i] == (if i < k then s[i] else s[i + 1]);
      DistinctBound(t, n - 1);
    } else {
      forall i | 0 <= i < |s| ensures s[i] < n - 1 { assert s[i] in s; }
      DistinctBound(s, n - 1);
    }
  }

  // ----- the search

  class DetectData {
    const visited: array<bool>
    const recStack: array<bool>
    var loop: bool
    var onloop: bool
    var loopstart: int
    var minLockNum: int
    var minTxnid: int
    ghost var path: seq<int>   // the recursion stack, outermost first
    ghost var done: seq<int>   // finished threads, in finishing order

    /** onloop and loopstart start with whatever malloc left there. */
    constructor (n: nat, junkOnloop: bool, junkLoopstart: int)
      ensures fresh(visited) && fresh(recStack) && visited != recStack
      ensures visited.Length == recStack.Length == n && forall i :: 0 <= i < n ==> !visited[i] && !recStack[i]
      ensures !loop && minLockNum == 1000 && minTxnid == -1 && path == [] && done == []
    {
      visited := new bool[n](i => false);
      recStack := new bool[n](i => false);
      loop, onloop, loopstart := false, junkOnloop, junkLoopstart;
      minLockNum, minTxnid := 1000, -1;
      path, done := [], [];
    }

    ghost predicate Marks(g: Graph)
      reads this, visited, recStack
    {
      && visited != recStack && visited.Length == recStack.Length == |g|
      && Distinct(path + done)
      && (forall i :: 0 <= i < |path| ==> 0 <= path[i] < |g|)
      && (forall u :: 0 <= u < |g| ==> (recStack[u] <==> u in path))
      && (forall u :: 0 <= u < |g| ==> (visited[u] <==> u in path + done))
    }

    /** The state of the search while no cycle has been found. */
    ghost predicate Searching(g: Graph)
      reads this, visited, recStack
    {
      && Marks(g) && Finished(g, done)
      && (path == [] || Path(g, path))
      && !loop && minLockNum == 1000 && minTxnid == -1
    }

    /** The state while it unwinds from the cycle p[k..], having left all threads from depth `d` on. */
    ghost predicate Unwinding(g: Graph, p: seq<int>, k: nat, d: nat)
      reads this
    {
      && Path(g, p) && k < |p| && d <= |p| && Edge(g, p[|p| - 1], p[k])
      && Distinct(p)
      && loop && loopstart == p[k] && (onloop <==> k < d)
      && IsVictim(g, p[if d < k then k else d..], minLockNum, minTxnid)
    }
  }

  /** Marking a thread as entered keeps the search state. */
  lemma EnterThread(g: Graph, path: seq<int>, done: seq<int>, thd: int)
    requires Distinct(path + done) && thd !in path + done && 0 <= thd < |g|
    requires path == [] || (Path(g, path) && Edge(g, path[|path| - 1], thd))
    requires forall i :: 0 <= i < |path| ==> 0 <= path[i] < |g|
    requires forall i :: 0 <= i < |done| ==> 0 <= done[i] < |g|
    ensures Distinct(path + [thd] + done) && Path(g, path + [thd])
    ensures |path| + |done| < |g|
  {
    var a, b := path + done, path + [thd] + done;
    forall i, j | 0 <= i < j < |b| ensures b[i] != b[j]
    {
      var i', j' := if i < |path| then i else i - 1, if j < |path| then j else j - 1;
      if i == |path| {
        assert b[j] == a[j - 1];
      } else if j == |path| {
        assert b[i] == a[i'];
      } else {
        assert b[i] == a[i'] && b[j] == a[j'];
      }
    }
    DistinctBound(b, |g|);
    var q := path + [thd];
    forall i | 0 <= i < |q| - 1 ensures Edge(g, q[i], q[i + 1])
    {
      if i < |path| - 1 {
        assert Edge(g, path[i], path[i + 1]);
      }
    }
  }

  /** A thread that leaves the stack without a cycle is finished. */
  lemma LeaveThread(g: Graph, path: seq<int>, done: seq<int>, thd: int)
    requires Distinct(path + [thd] + done) && Finished(g, done) && 0 <= thd < |g|
    requires AllSettled(g, thd, |g[thd].adj|, done)
    ensures Distinct(path + (done + [thd])) && Finished(g, done + [thd])
  {
    var a, b, n := path + [thd] + done, path + (done + [thd]), |path|;
    forall i | 0 <= i < |b| ensures b[i] == a[if i < n then i else if i < |b| - 1 then i + 1 else n] { }
    var e := done + [thd];
    forall i, v | 0 <= i < |e| && 0 <= v < |g| && Edge(g, e[i], v) ensures v in e[..i]
    {
      if i < |done| {
        assert e[..i] == done[..i] && Edge(g, done[i], v);
      } else {
        assert e[..i] == done;
        var n :| 0 <= n < |g[thd].adj| && Live(g, g[thd].adj[n], v);
        assert Settled(g, g[thd].adj[n], done);
      }
    }
  }

  /** The start of nextNode(): the thread is marked and, if its transaction is not stale, on the stack. */
  method EnterNode(g: Graph, txnid: nat, d: DetectData) returns (live: bool)
    requires |g| > 0 && d.Searching(g) && !d.visited[txnid % |g|]
    requires d.path != [] ==> Live(g, txnid, txnid % |g|) && Edge(g, d.path[|d.path| - 1], txnid % |g|)
    modifies d`path, d.visited, d.recStack
    ensures live <==> Live(g, txnid, txnid % |g|)
    ensures live ==> d.Searching(g) && d.path == old(d.path) + [txnid % |g|] && |old(d.path)| + |d.done| < |g|
  {
    var thd := txnid % |g|;
    EnterThread(g, d.path, d.done, thd);
    d.visited[thd] := true;
    d.recStack[thd] := true;
    if g[thd].txnid != txnid {
      d.recStack[thd] := false;
      return false;
    }
    d.path := d.path + [thd];
    live := true;
  }

  /** nextNode(): searches from the transaction `txnid`, which must not have been visited. */
  method NextNode(g: Graph, txnid: nat, d: DetectData) returns (found: bool, ghost p: seq<int>, ghost k: nat)
    requires |g| > 0 && d.Searching(g) && !d.visited[txnid % |g|]
    requires d.path != [] ==> Live(g, txnid, txnid % |g|) && Edge(g, d.path[|d.path| - 1], txnid % |g|)
    modifies d, d.visited, d.recStack
    ensures !Live(g, txnid, txnid % |g|) ==> !found
    ensures !found && Live(g, txnid, txnid % |g|) ==>
      d.Searching(g) && d.path == old(d.path) && old(d.done) <= d.done && txnid % |g| in d.done
    ensures found == d.loop
    ensures found ==> d.Unwinding(g, p, k, |old(d.path)|) && old(d.path) + [txnid % |g|] <= p
    decreases |g| - |d.path| - |d.done|, 0
  {
    var thd := txnid % |g|;
    ghost var stack := d.path;
    var live := EnterNode(g, txnid, d);
    if !live {
      return false, [], 0;
    }
    p, k := Successors(g, thd, d);
    LeaveNode(g, txnid, stack, d, p, k);
    found := d.loop;
  }

  /** The loop of nextNode() over the transactions that `thd` waits for. */
  method Successors(g: Graph, thd: int, d: DetectData) returns (ghost p: seq<int>, ghost k: nat)
    requires d.Searching(g) && d.path != [] && d.path[|d.path| - 1] == thd && 0 <= thd < |g|
    modifies d, d.visited, d.recStack
    ensures !d.loop ==>
      && d.Searching(g) && d.path == old(d.path) && old(d.done) <= d.done
      && AllSettled(g, thd, |g[thd].adj|, d.done)
    ensures d.loop ==> d.Unwinding(g, p, k, |old(d.path)|) && old(d.path) <= p && d.recStack.Length == |g|
    decreases |g| - |d.path| - |d.done|, 2
  {
    p, k := [], 0;
    DistinctBound(d.path + d.done, |g|);
    var n := 0;
    while n < |g[thd].adj|
      invariant 0 <= n <= |g[thd].adj|
      invariant d.Searching(g) && d.path == old(d.path) && old(d.done) <= d.done && |d.path| + |d.done| <= |g|
      invariant AllSettled(g, thd, n, d.done)
    {
      var found;
      ghost var before := d.done;
      found, p, k := TryEdge(g, thd, n, d);
      if found {
        return;
      }
      MoreSettled(g, thd, n, before, d.done);
      DistinctBound(d.path + d.done, |g|);
      n := n + 1;
    }
  }

  /** One transaction that `thd` waits for: a back edge, a deeper search, or nothing new. */
  method TryEdge(g: Graph, thd: int, n: nat, d: DetectData) returns (found: bool, ghost p: seq<int>, ghost k: nat)
    requires d.Searching(g) && d.path != [] && d.path[|d.path| - 1] == thd && 0 <= thd < |g| && n < |g[thd].adj|
    requires |d.path| + |d.done| <= |g|
    modifies d, d.visited, d.recStack
    ensures found == d.loop
    ensures !found ==>
      && d.Searching(g) && d.path == old(d.path) && old(d.done) <= d.done
      && Settled(g, g[thd].adj[n], d.done)
    ensures found ==> d.Unwinding(g, p, k, |old(d.path)|) && old(d.path) <= p && d.recStack.Length == |g|
    decreases |g| - |d.path| - |d.done|, 1
  {
    found, p, k := false, [], 0;
    var id := g[thd].adj[n];
    var nextthd := id % |g|;
    if d.recStack[nextthd] {
      if g[nextthd].txnid == id {
        d.loop, d.onloop, d.loopstart := true, true, nextthd;
        p := d.path;
        k := BackEdge(g, p, d.done, thd, n);
        return true, p, k;
      }
    }
    if !d.visited[nextthd] && g[nextthd].txnid == id {
      assert Live(g, g[thd].adj[n], nextthd);
      found, p, k := NextNode(g, id, d);
    }
  }

  /** The thread found on the stack closes a cycle. */
  lemma BackEdge(g: Graph, path: seq<int>, done: seq<int>, thd: int, n: nat) returns (k: nat)
    requires Path(g, path) && Distinct(path + done) && path[|path| - 1] == thd && 0 <= thd < |g| && n < |g[thd].adj|
    requires g[thd].adj[n] % |g| in path && Live(g, g[thd].adj[n], g[thd].adj[n] % |g|)
    ensures k < |path| && path[k] == g[thd].adj[n] % |g| && Edge(g, path[|path| - 1], path[k]) && Distinct(path)
    ensures IsVictim(g, path[|path|..], 1000, -1)
  {
    k :| 0 <= k < |path| && path[k] == g[thd].adj[n] % |g|;
    var a := path + done;
    assert forall i :: 0 <= i < |path| ==> a[i] == path[i];
  }

  /** The end of nextNode(): off the stack, and on the way back through the cycle a candidate victim. */
  method LeaveNode(g: Graph, txnid: nat, ghost stack: seq<int>, d: DetectData, ghost p: seq<int>, ghost k: nat)
    requires |g| > 0 && d.recStack.Length == |g| && Live(g, txnid, txnid % |g|)
    requires !d.loop ==>
      && d.Searching(g) && d.path == stack + [txnid % |g|]
      && AllSettled(g, txnid % |g|, |g[txnid % |g|].adj|, d.done)
    requires d.loop ==> d.Unwinding(g, p, k, |stack| + 1) && stack + [txnid % |g|] <= p
    requires stack == [] || Path(g, stack)
    modifies d, d.recStack
    ensures d.loop == old(d.loop)
    ensures !d.loop ==> d.Searching(g) && d.path == stack && d.done == old(d.done) + [txnid % |g|]
    ensures d.loop ==> d.Unwinding(g, p, k, |stack|)
  {
    var thd := txnid % |g|;
    d.recStack[thd] := false;
    if !d.loop {
      FinishNode(g, thd, stack, d);
      if thd == d.loopstart {
        d.onloop := false;
      }
    } else {
      UnwindNode(g, txnid, |stack|, d, p, k);
    }
  }

  /** The same on the way back from a cycle: its members bid for being the victim. */
  method UnwindNode(g: Graph, txnid: nat, ghost depth: nat, d: DetectData, ghost p: seq<int>, ghost k: nat)
    requires |g| > 0 && d.Unwinding(g, p, k, depth + 1) && p[depth] == txnid % |g| && g[txnid % |g|].txnid == txnid
    modifies d
    ensures d.Unwinding(g, p, k, depth)
  {
    var thd := txnid % |g|;
    UnwindStep(g, p, k, depth, d.minLockNum, d.minTxnid);
    if d.loop && d.onloop && g[thd].numLocks < d.minLockNum {
      d.minLockNum := g[thd].numLocks;
      d.minTxnid := txnid;
    }
    if thd == d.loopstart {
      d.onloop := false;
    }
  }

  /** Bookkeeping: `thd`, already off the recursion stack, becomes a finished thread. */
  ghost method FinishNode(g: Graph, thd: int, stack: seq<int>, d: DetectData)
    requires 0 <= thd < |g| && d.visited != d.recStack && d.visited.Length == d.recStack.Length == |g|
    requires d.path == stack + [thd] && Distinct(d.path + d.done) && Finished(g, d.done)
    requires forall i :: 0 <= i < |d.path| ==> 0 <= d.path[i] < |g|
    requires forall u :: 0 <= u < |g| ==> (d.recStack[u] <==> u in d.path && u != thd)
    requires forall u :: 0 <= u < |g| ==> (d.visited[u] <==> u in d.path + d.done)
    requires AllSettled(g, thd, |g[thd].adj|, d.done)
    requires !d.loop && d.minLockNum == 1000 && d.minTxnid == -1 && (stack == [] || Path(g, stack))
    modifies d`path, d`done
    ensures d.Searching(g) && d.path == stack && d.done == old(d.done) + [thd]
  {
    LeaveThread(g, stack, d.done, thd);
    assert thd !in stack by {
      var a := d.path + d.done;
      assert a[|stack|] == thd && forall i :: 0 <= i < |stack| ==> a[i] == stack[i];
    }
    d.path, d.done := stack, d.done + [thd];
    assert forall u :: u in stack + d.done <==> u in stack + [thd] + old(d.done);
  }

  lemma UnwindStep(g: Graph, p: seq<int>, k: nat, d: nat, locks: int, id: int)
    requires Path(g, p) && k < |p| && d < |p| && Distinct(p)
    requires IsVictim(g, p[if d + 1 < k then k else d + 1..], locks, id)
    ensures k <= d ==>
      if g[p[d]].numLocks < locks then IsVictim(g, p[d..], g[p[d]].numLocks, g[p[d]].txnid) else IsVictim(g, p[d..], locks, id)
    ensures d < k ==> IsVictim(g, p[k..], locks, id)
    ensures p[d] == p[k] <==> d == k
  {
    if k <= d {
      assert p[d..] == [p[d]] + p[d + 1..];
      VictimStep(g, p[d], p[d + 1..], locks, id);
    }
  }

  // ----- the detector

  /** get_thdid_from_txnid((uint64_t) -1) */
  function NoVictimThread(n: nat): nat
    requires n > 0
  {
    0xFFFF_FFFF_FFFF_FFFF % n
  }

  class Detector {
    var dependency: seq<DepThd>
    var lockAbort: seq<bool>    // txn->lock_abort, per thread

    constructor (threads: nat)
      requires threads > 0
      ensures |dependency| == |lockAbort| == threads
      ensures forall i :: 0 <= i < threads ==> dependency[i] == DepThd([], -1, 0) && !lockAbort[i]
    {
      dependency := seq(threads, i => DepThd([], -1, 0));
      lockAbort := seq(threads, i => false);
    }

    /** add_dep(): exactly the listed live transactions become new out-edges of the caller's thread. */
    method AddDep(txnid: nat, txnids: seq<nat>, numLocks: int)
      requires |dependency| > 0
      modifies this`dependency
      ensures |dependency| == |old(dependency)|
      ensures var t := txnid % |dependency|;
        && dependency == old(dependency)[t := DepThd(old(dependency)[t].adj + txnids, txnid, numLocks)]
        && (forall v :: v != t ==>
              (Edge(dependency, t, v) <==>
                 Edge(old(dependency), t, v) || exists n :: 0 <= n < |txnids| && Live(old(dependency), txnids[n], v)))
    {
      var t := txnid % |dependency|;
      ghost var g := dependency;
      dependency := dependency[t := DepThd(dependency[t].adj + txnids, txnid, numLocks)];
      ghost var a := g[t].adj;
      forall v | v != t
        ensures Edge(dependency, t, v) <==> Edge(g, t, v) || exists n :: 0 <= n < |txnids| && Live(g, txnids[n], v)
      {
        assert forall n :: 0 <= n < |a| ==> dependency[t].adj[n] == a[n];
        assert forall n :: 0 <= n < |txnids| ==> dependency[t].adj[|a| + n] == txnids[n];
        assert forall id :: Live(dependency, id, v) == Live(g, id, v);
      }
    }

    /** clear_dep(): the thread waits for nobody and nobody waits for it. */
    method ClearDep(txnid: nat)
      requires |dependency| > 0
      modifies this`dependency
      ensures dependency == old(dependency)[txnid % |old(dependency)| := DepThd([], -1, 0)]
      ensures forall v :: !Edge(dependency, txnid % |dependency|, v) && !Edge(dependency, v, txnid % |dependency|)
    {
      dependency := dependency[txnid % |dependency| := DepThd([], -1, 0)];
    }

    /** The end of detect_cycle(): flags the transaction to abort, if it is still registered. */
    method MarkVictim(id: int) returns (victim: int)
      requires 0 < |dependency| == |lockAbort| && (id == -1 || (id >= 0 && dependency[id % |dependency|].txnid == id))
      modifies this`lockAbort
      ensures victim == if id == -1 then -1 else id % |dependency|
      ensures lockAbort ==
        if victim != -1 then old(lockAbort)[victim := true]
        else if dependency[NoVictimThread(|dependency|)].txnid == -1 then old(lockAbort)[NoVictimThread(|dependency|) := true]
        else old(lockAbort)
    {
      var t := if id == -1 then NoVictimThread(|dependency|) else id % |dependency|;
      victim := if id == -1 then -1 else t;
      if dependency[t].txnid == id {
        lockAbort := lockAbort[t := true];
      }
    }

    /**
     * detect_cycle(): reports a deadlock exactly when the transaction is registered and a cycle of
     * live edges can be reached from it. The victim is a member of such a cycle with the fewest
     * locks, exactly when some member of the cycle holds fewer than 1000.
     */
    method DetectCycle(txnid: nat, junkOnloop: bool, junkLoopstart: int) returns (deadlock: bool, ghost cycle: seq<int>, victim: int)
      requires 0 < |dependency| == |lockAbort|
      modifies this`lockAbort
      ensures deadlock <==> Live(dependency, txnid, txnid % |dependency|) && Deadlocked(dependency, txnid % |dependency|)
      ensures deadlock ==> Cycle(dependency, cycle)
      ensures deadlock ==> (victim == -1 <==> forall i :: 0 <= i < |cycle| ==> dependency[cycle[i]].numLocks >= 1000)
      ensures deadlock && victim != -1 ==>
        && 0 <= victim < |dependency| && victim in cycle
        && forall i :: 0 <= i < |cycle| ==> dependency[victim].numLocks <= dependency[cycle[i]].numLocks
      ensures lockAbort ==
        if !deadlock then old(lockAbort)
        else if victim != -1 then old(lockAbort)[victim := true]
        else if dependency[NoVictimThread(|dependency|)].txnid == -1 then old(lockAbort)[NoVictimThread(|dependency|) := true]
        else old(lockAbort)
    {
      var minTxnid;
      deadlock, cycle, minTxnid := Search(dependency, txnid, junkOnloop, junkLoopstart);
      victim := -1;
      if deadlock {
        victim := MarkVictim(minTxnid);
      }
    }
  }

  /** The search of detect_cycle() on a snapshot: deadlock or not, and the id of the victim. */
  method Search(g: Graph, txnid: nat, junkOnloop: bool, junkLoopstart: int) returns (deadlock: bool, ghost cycle: seq<int>, minTxnid: int)
    requires |g| > 0
    ensures deadlock <==> Live(g, txnid, txnid % |g|) && Deadlocked(g, txnid % |g|)
    ensures deadlock ==> Cycle(g, cycle) && VictimOf(g, cycle, minTxnid)
  {
    var d := new DetectData(|g|, junkOnloop, junkLoopstart);
    ghost var p, k;
    deadlock, p, k := NextNode(g, txnid, d);
    cycle, minTxnid := [], d.minTxnid;
    if deadlock {
      PathWithBackEdge(g, p, k);
      cycle := p[k..];
      VictimThread(g, cycle, d.minLockNum, d.minTxnid);
    } else if Live(g, txnid, txnid % |g|) {
      assert d.path + d.done == d.done;
      FinishedIsSafe(g, d.done, txnid % |g|);
    }
  }

  /** The registered id of a member with the fewest locks; -1 exactly when all hold 1000 or more. */
  predicate VictimOf(g: Graph, c: seq<int>, id: int)
    requires |g| > 0 && forall i :: 0 <= i < |c| ==> 0 <= c[i] < |g|
  {
    && (id == -1 <==> forall i :: 0 <= i < |c| ==> g[c[i]].numLocks >= 1000)
    && (id != -1 ==>
          && id >= 0 && id % |g| in c && g[id % |g|].txnid == id
          && forall i :: 0 <= i < |c| ==> g[id % |g|].numLocks <= g[c[i]].numLocks)
  }

  /** A member of a cycle is live, so its id leads back to its thread. */
  lemma VictimThread(g: Graph, c: seq<int>, locks: int, id: int)
    requires Cycle(g, c) && IsVictim(g, c, locks, id)
    ensures VictimOf(g, c, id)
  {
    if locks < 1000 {
      var i :| 0 <= i < |c| && g[c[i]].numLocks == locks && g[c[i]].txnid == id;
      if i == 0 {
        assert Edge(g, c[|c| - 1], c[0]);
      } else {
        assert Edge(g, c[i - 1], c[i]);
      }
    }
  }
}
