/**
 * What transactions of TicToc asked for, told from the schedule and the rows alone
 * (trusted/concurrency_control/row_tictoc.cpp:21-62, tictoc.cpp:220-243): in every run, shortened
 * leases or not, a commit records exactly what its transaction saw and last wrote.
 */
module TicTocClient {
  import opened Wrappers
  import opened Serial
  import opened TicToc
  import opened TicTocInvariant

  /** An access under way: the row and its write timestamp at the first look, and the tuple copied. */
  datatype Open = Open(r: nat, write: bool, wts: nat, copy: Value)

  /** A transaction as its calls tell it: what it saw, and the last value it wrote to each row. */
  datatype Client = Client(open: Open, seen: map<nat, Value>, writes: map<nat, Value>)

  /** The second look finds the row unlocked and with the same write timestamp. */
  predicate Accepted(m: State, o: Open) {
    o.r < |m.rows| && m.rows[o.r].lock == FREE && m.rows[o.r].word.wts == o.wts
  }

  /** The effect of one call, given the rows at that moment. */
  function Calls(m: State, c: Client, t: nat, a: Action): Client {
    if a.t != t then c
    else
      match a
      case Peek(_, r, w) => if r < |m.rows| then c.(open := Open(r, w, m.rows[r].word.wts, 0)) else c
      case CopyRow(_) => if c.open.r < |m.rows| then c.(open := c.open.(copy := m.rows[c.open.r].data)) else c
      case Recheck(_, val) =>
        if !Accepted(m, c.open) then c
        else c.(seen := c.seen[c.open.r := c.open.copy], writes := if c.open.write then c.writes[c.open.r := val] else c.writes)
      case Modify(_, r, val) => c.(writes := c.writes[r := val])
      case _ => c
  }

  function ClientOf(s: State, schedule: seq<Action>, byLength: bool, t: nat): Client {
    if schedule == [] then Client(Open(0, false, 0, 0), map[], map[])
    else
      var n := |schedule| - 1;
      var c := ClientOf(s, schedule[..n], byLength, t);
      if Run(s, schedule[..n], byLength).Some? then Calls(Run(s, schedule[..n], byLength).value, c, t, schedule[n]) else c
  }

  predicate Serves(x: Txn, c: Client) {
    && x.wr.Keys == c.writes.Keys && x.rd.Keys + x.wr.Keys == c.seen.Keys && x.rd.Keys !! x.wr.Keys
    && (forall r :: r in x.wr ==> x.wr[r].val == c.writes[r] && x.wr[r].data == c.seen[r])
    && (forall r :: r in x.rd ==> x.rd[r].data == c.seen[r])
    && match x.phase
       case Peeked(r, w, v) => c.open.r == r && c.open.write == w && c.open.wts == v.wts && r !in x.rd && r !in x.wr
       case Copied(r, w, v, copy) => c.open == Open(r, w, v.wts, copy) && r !in x.rd && r !in x.wr
       case _ => true
  }

  lemma ServesAccess(x: Txn, c: Client, a: Acc, y: Txn)
    requires Serves(x, c) && x.phase.Copied? && a.data == c.open.copy
    requires y == if c.open.write then x.(phase := Running, wr := x.wr[c.open.r := a]) else x.(phase := Running, rd := x.rd[c.open.r := a])
    ensures Serves(y, c.(seen := c.seen[c.open.r := c.open.copy], writes := if c.open.write then c.writes[c.open.r := a.val] else c.writes))
  {
  }

  lemma ServesModify(x: Txn, c: Client, r: nat, val: Value)
    requires Serves(x, c) && r in x.wr && x.phase.Running?
    ensures Serves(x.(wr := x.wr[r := x.wr[r].(val := val)]), c.(writes := c.writes[r := val]))
  {
  }

  predicate OfBody(a: Action) {
    a.Peek? || a.CopyRow? || a.Recheck? || a.Modify?
  }

  lemma OthersSame(s: State, a: Action, byLength: bool, t: nat)
    requires Enabled(s, a) && t < |s.txns| && a.t != t
    ensures t < |Apply(s, a, byLength).txns| && Apply(s, a, byLength).txns[t] == s.txns[t]
  {
  }

  /** Steps that are not of its body leave the accesses alone. */
  lemma OwnSame(s: State, a: Action, byLength: bool)
    requires Enabled(s, a) && !OfBody(a)
    ensures var s' := Apply(s, a, byLength);
      && a.t < |s'.txns| && s'.txns[a.t].rd == s.txns[a.t].rd && s'.txns[a.t].wr == s.txns[a.t].wr
      && !s'.txns[a.t].phase.Peeked? && !s'.txns[a.t].phase.Copied?
  {
  }

  lemma StepServes(s: State, a: Action, byLength: bool, t: nat, c: Client)
    requires Enabled(s, a) && t < |s.txns| && Serves(s.txns[t], c)
    ensures t < |Apply(s, a, byLength).txns| && Serves(Apply(s, a, byLength).txns[t], Calls(s, c, t, a))
  {
    if a.t == t && a.Recheck? {
      if Accepted(s, c.open) {
        var p := s.txns[t].phase;
        ServesAccess(s.txns[t], c, Acc(p.v.wts, p.v.Rts(), p.copy, a.val), Apply(s, a, byLength).txns[t]);
      }
    } else if a.t == t && a.Modify? {
      ServesModify(s.txns[t], c, a.r, a.val);
    } else if a.t != t {
      OthersSame(s, a, byLength, t);
    } else if !OfBody(a) {
      OwnSame(s, a, byLength);
    }
  }

  lemma StepTxns(s: State, a: Action, byLength: bool)
    requires Enabled(s, a)
    ensures |Apply(s, a, byLength).txns| == |s.txns|
  {
  }

  lemma {:induction false} RunServes(s: State, schedule: seq<Action>, byLength: bool, t: nat)
    requires Init(s) && Run(s, schedule, byLength).Some? && t < |s.txns|
    ensures |Run(s, schedule, byLength).value.txns| == |s.txns|
        && Serves(Run(s, schedule, byLength).value.txns[t], ClientOf(s, schedule, byLength, t))
  {
    if schedule != [] {
      var n := |schedule| - 1;
      RunServes(s, schedule[..n], byLength, t);
      StepTxns(Run(s, schedule[..n], byLength).value, schedule[n], byLength);
      StepServes(Run(s, schedule[..n], byLength).value, schedule[n], byLength, t, ClientOf(s, schedule[..n], byLength, t));
    }
  }

  lemma {:induction false} RunTxns(s: State, schedule: seq<Action>, byLength: bool)
    requires Run(s, schedule, byLength).Some?
    ensures |Run(s, schedule, byLength).value.txns| == |s.txns|
  {
    if schedule != [] {
      RunTxns(s, schedule[..|schedule| - 1], byLength);
      StepTxns(Run(s, schedule[..|schedule| - 1], byLength).value, schedule[|schedule| - 1], byLength);
    }
  }

  lemma RecordServes(t: nat, x: Txn, c: Client)
    requires Serves(x, c)
    ensures RecordOf(t, x).readSet == c.seen && RecordOf(t, x).writeSet == c.writes
  {
  }

  // ----- the history, whatever happens to the leases

  lemma SameRecords(s: State, a: Action, byLength: bool, t: nat)
    requires Enabled(s, a) && !a.Commit? && t < |s.txns|
    ensures var s' := Apply(s, a, byLength);
      && s'.hist == s.hist && |s'.txns| == |s.txns| && s'.txns[t].phase.Installing? == s.txns[t].phase.Installing?
      && (s.txns[t].phase.Installing? ==> RecordOf(t, s'.txns[t]) == RecordOf(t, s.txns[t]))
  {
  }

  lemma StepHistory(s: State, a: Action, byLength: bool)
    requires Enabled(s, a) && HistoryOK(s)
    ensures HistoryOK(Apply(s, a, byLength))
  {
    var s' := Apply(s, a, byLength);
    StepTxns(s, a, byLength);
    if a.Commit? {
      InsertMembers(s.hist, RecordOf(a.t, s.txns[a.t]));
      assert forall t :: 0 <= t < |s.txns| && t != a.t ==> s'.txns[t] == s.txns[t];
    } else {
      forall t | 0 <= t < |s.txns|
        ensures s'.txns[t].phase.Installing? == s.txns[t].phase.Installing?
        ensures s.txns[t].phase.Installing? ==> RecordOf(t, s'.txns[t]) == RecordOf(t, s.txns[t])
      {
        SameRecords(s, a, byLength, t);
      }
      assert s'.hist == s.hist;
    }
  }

  lemma {:induction false} RunHistory(s: State, schedule: seq<Action>, byLength: bool)
    requires Init(s) && Run(s, schedule, byLength).Some?
    ensures HistoryOK(Run(s, schedule, byLength).value)
  {
    if schedule != [] {
      var n := |schedule| - 1;
      RunHistory(s, schedule[..n], byLength);
      StepHistory(Run(s, schedule[..n], byLength).value, schedule[n], byLength);
    }
  }

  /** Every commit of every run records exactly the values its transaction saw and those it wrote last. */
  lemma CommitsAsAsked(s: State, schedule: seq<Action>, byLength: bool, c: Committed)
    requires Init(s) && Run(s, schedule, byLength).Some? && c in Run(s, schedule, byLength).value.hist
    ensures c.readSet == ClientOf(s, schedule, byLength, c.id).seen && c.writeSet == ClientOf(s, schedule, byLength, c.id).writes
  {
    RunHistory(s, schedule, byLength);
    RunTxns(s, schedule, byLength);
    RunServes(s, schedule, byLength, c.id);
    RecordServes(c.id, Run(s, schedule, byLength).value.txns[c.id], ClientOf(s, schedule, byLength, c.id));
  }
}
