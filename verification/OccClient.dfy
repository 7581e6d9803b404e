/**
 * What transactions of per-row OCC see and leave behind, told from the schedule alone
 * (trusted/concurrency_control/row_occ.cpp:17-57, occ.cpp:70-86): when an access is granted and what
 * it returns, and that a commit records exactly what its transaction read and last wrote. All of
 * it holds in every run, with one counter or two.
 */
module OccClient {
  import opened Wrappers
  import opened Serial
  import opened Occ
  import opened OccLatches

  // ----- the rows and the history

  /** A committed transaction that has written row `r` back. */
  predicate Installed(s: State, c: Committed, r: nat) {
    c in s.hist && r in c.writeSet && c.id < |s.txns| && s.txns[c.id].phase.Writing? && r in s.txns[c.id].phase.written
  }

  ghost function Installers(s: State, r: nat): set<nat> {
    set t | 0 <= t < |s.txns| && s.txns[t].phase.Writing? && r in s.txns[t].phase.written
  }

  /** The last transaction that has written `r` back left the value `v` at time `ts`; none at time 0. */
  ghost predicate LastInstalled(s: State, r: nat, ts: nat, v: Value) {
    if Installers(s, r) == {} then ts == 0 && r < |s.db| && v == s.db[r]
    else
      && (exists t :: t in Installers(s, r) && s.txns[t].end == ts && r in s.txns[t].wr && s.txns[t].wr[r].val == v)
      && (forall t :: t in Installers(s, r) ==> s.txns[t].end <= ts)
  }

  ghost predicate RowTold(s: State, r: nat)
    requires r < |s.rows|
  {
    s.rows[r].version == |Installers(s, r)| && LastInstalled(s, r, s.rows[r].wts, s.rows[r].data)
  }

  /** The history holds exactly the transactions that took an end timestamp, each with what it did. */
  ghost predicate HistoryTold(s: State) {
    && DistinctIds(s.hist)
    && (forall c :: c in s.hist ==> c.id < |s.txns| && s.txns[c.id].phase.Writing? && c == RecordOf(c.id, s.txns[c.id]))
    && (forall t :: 0 <= t < |s.txns| && s.txns[t].phase.Writing? ==> RecordOf(t, s.txns[t]) in s.hist)
  }

  ghost predicate Told(s: State) {
    |s.db| == |s.rows| && HistoryTold(s) && forall r :: 0 <= r < |s.rows| ==> RowTold(s, r)
  }

  lemma InitTold(s: State)
    requires Init(s)
    ensures Told(s)
  {
    forall r | 0 <= r < |s.rows|
      ensures RowTold(s, r)
    {
      assert Installers(s, r) == {};
    }
  }

  lemma SameInstaller(s: State, a: Action, r: nat, t: nat)
    requires Enabled(s, a) && !(a.Write? && a.r == r) && t < |s.txns|
    ensures |Apply(s, a).txns| == |s.txns|
    ensures t in Installers(Apply(s, a), r) <==> t in Installers(s, r)
    ensures t in Installers(s, r) ==> Apply(s, a).txns[t].end == s.txns[t].end && Apply(s, a).txns[t].wr == s.txns[t].wr
  {
  }

  /** Steps that write nothing back leave the writers as they are. */
  lemma SameInstallers(s: State, a: Action, r: nat)
    requires Enabled(s, a) && !(a.Write? && a.r == r)
    ensures Installers(Apply(s, a), r) == Installers(s, r)
    ensures forall t :: t in Installers(s, r) ==> Apply(s, a).txns[t].end == s.txns[t].end && Apply(s, a).txns[t].wr == s.txns[t].wr
  {
    assert |Apply(s, a).txns| == |s.txns|;
    forall t: nat | t < |s.txns|
      ensures t in Installers(Apply(s, a), r) <==> t in Installers(s, r)
      ensures t in Installers(s, r) ==> Apply(s, a).txns[t].end == s.txns[t].end && Apply(s, a).txns[t].wr == s.txns[t].wr
    {
      SameInstaller(s, a, r, t);
    }
  }

  lemma SameRow(s: State, a: Action, r: nat)
    requires Enabled(s, a) && !(a.Write? && a.r == r) && r < |s.rows|
    ensures var s' := Apply(s, a);
      |s'.rows| == |s.rows| && s'.db == s.db && s'.rows[r] == s.rows[r].(latch := s'.rows[r].latch)
  {
  }

  lemma OtherRow(s: State, a: Action, r: nat)
    requires Enabled(s, a) && !(a.Write? && a.r == r) && r < |s.rows| && RowTold(s, r)
    ensures r < |Apply(s, a).rows| && RowTold(Apply(s, a), r)
  {
    SameInstallers(s, a, r);
    SameRow(s, a, r);
  }

  lemma WrittenRow(s: State, t: nat, r: nat)
    requires Enabled(s, Write(t, r)) && RowTold(s, r) && s.rows[r].wts < s.txns[t].end
    ensures RowTold(Apply(s, Write(t, r)), r)
  {
    var s' := DoWrite(s, t, r);
    assert Installers(s', r) == Installers(s, r) + {t};
    assert t !in Installers(s, r);
    assert t in Installers(s', r) && s'.txns[t].end == s'.rows[r].wts;
  }

  lemma StepHistory(s: State, a: Action)
    requires Enabled(s, a) && HistoryTold(s)
    ensures HistoryTold(Apply(s, a))
  {
    var s' := Apply(s, a);
    if a.TakeEnd? {
      var c := RecordOf(a.t, s'.txns[a.t]);
      InsertMembers(s.hist, c);
      assert forall t :: 0 <= t < |s.txns| && t != a.t ==> s'.txns[t] == s.txns[t];
    } else {
      SameRecords(s, a);
    }
  }

  lemma SameRecords(s: State, a: Action)
    requires Enabled(s, a) && !a.TakeEnd?
    ensures var s' := Apply(s, a); s'.hist == s.hist && |s'.txns| == |s.txns|
    ensures forall t :: 0 <= t < |s.txns| ==> Apply(s, a).txns[t].phase.Writing? == s.txns[t].phase.Writing?
    ensures forall t :: 0 <= t < |s.txns| && s.txns[t].phase.Writing? ==> RecordOf(t, Apply(s, a).txns[t]) == RecordOf(t, s.txns[t])
  {
  }

  lemma {:induction false} RunTold(s: State, schedule: seq<Action>)
    requires Init(s) && Run(s, schedule).Some?
    ensures Told(Run(s, schedule).value) && Run(s, schedule).value.db == s.db
  {
    if schedule == [] {
      InitTold(s);
    } else {
      var n := |schedule| - 1;
      RunTold(s, schedule[..n]);
      RunBasic(s, schedule[..n]);
      StepTold(Run(s, schedule[..n]).value, schedule[n]);
    }
  }

  lemma StepTold(s: State, a: Action)
    requires Enabled(s, a) && Told(s) && Basic(s)
    ensures Told(Apply(s, a)) && Apply(s, a).db == s.db
  {
    var s' := Apply(s, a);
    StepHistory(s, a);
    assert |s'.rows| == |s.rows| && s'.db == s.db;
    forall r | 0 <= r < |s'.rows|
      ensures RowTold(s', r)
    {
      if a.Write? && a.r == r {
        assert LatchesOK(s, a.t);
        WrittenRow(s, a.t, r);
      } else {
        OtherRow(s, a, r);
      }
    }
  }

  // ----- an access

  /** A transaction that committed later than `start` has written `r` back. */
  ghost predicate Overtaken(s: State, r: nat, start: nat) {
    exists c :: Installed(s, c, r) && c.ts > start
  }

  /** `v` is the value of the last transaction that has written `r` back, or the initial one. */
  ghost predicate IsCurrent(s: State, r: nat, v: Value) {
    || ((forall c :: !Installed(s, c, r)) && r < |s.db| && v == s.db[r])
    || (exists c :: Installed(s, c, r) && c.writeSet[r] == v && forall d :: Installed(s, d, r) ==> d.ts <= c.ts)
  }

  lemma InstalledIsInstaller(s: State, r: nat)
    requires HistoryTold(s)
    ensures forall c :: Installed(s, c, r) ==> c.id in Installers(s, r) && c.ts == s.txns[c.id].end && c == RecordOf(c.id, s.txns[c.id])
    ensures forall t :: t in Installers(s, r) && r in s.txns[t].wr ==> Installed(s, RecordOf(t, s.txns[t]), r)
  {
  }

  lemma WrittenInWr(s: State, r: nat)
    requires Basic(s)
    ensures forall t :: t in Installers(s, r) ==> r in s.txns[t].wr
  {
    forall t | t in Installers(s, r)
      ensures r in s.txns[t].wr
    {
      assert LatchesOK(s, t);
    }
  }

  /** The row's timestamp, version and tuple, in terms of the history. */
  lemma RowIsCurrent(s: State, r: nat, start: nat)
    requires Told(s) && Basic(s) && r < |s.rows|
    ensures start < s.rows[r].wts <==> Overtaken(s, r, start)
    ensures IsCurrent(s, r, s.rows[r].data) && s.rows[r].version == |Installers(s, r)|
  {
    assert RowTold(s, r);
    WrittenInWr(s, r);
    InstalledIsInstaller(s, r);
    if Installers(s, r) != {} {
      var t :| t in Installers(s, r) && s.txns[t].end == s.rows[r].wts && r in s.txns[t].wr && s.txns[t].wr[r].val == s.rows[r].data;
      var c := RecordOf(t, s.txns[t]);
      assert Installed(s, c, r) && c.ts == s.rows[r].wts && c.writeSet[r] == s.rows[r].data;
    }
  }

  /**
   * In every run: an access is refused if and only if a transaction that committed after the
   * reader's start has written the row back. Otherwise it is on record with the value of the last
   * transaction that has, and with how many have, and as the value to write the one asked for.
   */
  lemma AccessExact(s: State, schedule: seq<Action>, t: nat, r: nat, w: bool, val: Value)
    requires Init(s) && Run(s, schedule).Some? && Enabled(Run(s, schedule).value, Access(t, r, w, val))
    ensures var f := Run(s, schedule).value;
      var g := Apply(f, Access(t, r, w, val));
      var x := f.txns[t];
      if Overtaken(f, r, x.start) then g == SetTxn(f, t, x.(phase := Aborting))
      else exists a: Acc ::
        && IsCurrent(f, r, a.data) && a.version == |Installers(f, r)| && a.val == val
        && g == SetTxn(f, t, if w then x.(wr := x.wr[r := a]) else x.(rd := x.rd[r := a]))
  {
    RunTold(s, schedule);
    RunBasic(s, schedule);
    var f := Run(s, schedule).value;
    RowIsCurrent(f, r, f.txns[t].start);
    var a := Acc(f.rows[r].data, val, f.rows[r].version);
    assert !Overtaken(f, r, f.txns[t].start) ==>
      Apply(f, Access(t, r, w, val)) ==
        SetTxn(f, t, if w then f.txns[t].(wr := f.txns[t].wr[r := a]) else f.txns[t].(rd := f.txns[t].rd[r := a]));
  }

  // ----- what a transaction asked for

  /** A transaction as its calls tell it: its start, what it saw, and the last value it wrote to each row. */
  datatype Client = Client(start: nat, seen: map<nat, Value>, writes: map<nat, Value>)

  /** The effect of one call, given the rows and the history at that moment. */
  ghost function Calls(m: State, c: Client, t: nat, a: Action): Client {
    if a.t != t then c
    else
      match a
      case Begin(_) => c.(start := m.outside)
      case Access(_, r, w, val) =>
        if r >= |m.rows| || Overtaken(m, r, c.start) then c
        else c.(seen := c.seen[r := m.rows[r].data], writes := if w then c.writes[r := val] else c.writes)
      case Modify(_, r, val) => c.(writes := c.writes[r := val])
      case _ => c
  }

  ghost function ClientOf(s: State, schedule: seq<Action>, t: nat): Client {
    if schedule == [] then Client(0, map[], map[])
    else
      var n := |schedule| - 1;
      var c := ClientOf(s, schedule[..n], t);
      if Run(s, schedule[..n]).Some? then Calls(Run(s, schedule[..n]).value, c, t, schedule[n]) else c
  }

  predicate Serves(x: Txn, c: Client) {
    && x.start == c.start && x.wr.Keys == c.writes.Keys && x.rd.Keys + x.wr.Keys == c.seen.Keys && x.rd.Keys !! x.wr.Keys
    && (forall r :: r in x.wr ==> x.wr[r].val == c.writes[r] && x.wr[r].data == c.seen[r])
    && (forall r :: r in x.rd ==> x.rd[r].data == c.seen[r])
  }

  lemma ServesAccess(x: Txn, c: Client, r: nat, w: bool, a: Acc)
    requires Serves(x, c) && !Accessed(x, r)
    ensures Serves(if w then x.(wr := x.wr[r := a]) else x.(rd := x.rd[r := a]),
                   c.(seen := c.seen[r := a.data], writes := if w then c.writes[r := a.val] else c.writes))
  {
  }

  lemma ServesModify(x: Txn, c: Client, r: nat, val: Value)
    requires Serves(x, c) && r in x.wr
    ensures Serves(x.(wr := x.wr[r := x.wr[r].(val := val)]), c.(writes := c.writes[r := val]))
  {
  }

  /** Other steps leave the accesses alone. */
  lemma SameAccesses(s: State, a: Action, t: nat)
    requires Enabled(s, a) && t < |s.txns| && (a.t != t || !(a.Access? || a.Modify?))
    ensures var s' := Apply(s, a);
      && t < |s'.txns| && s'.txns[t].rd == s.txns[t].rd && s'.txns[t].wr == s.txns[t].wr
      && s'.txns[t].start == if a.t == t && a.Begin? then s.outside else s.txns[t].start
  {
  }

  lemma StepServes(s: State, a: Action, t: nat, c: Client)
    requires Enabled(s, a) && t < |s.txns| && Told(s) && Basic(s) && Serves(s.txns[t], c)
    ensures t < |Apply(s, a).txns| && Serves(Apply(s, a).txns[t], Calls(s, c, t, a))
  {
    if a.t == t && a.Access? {
      RowIsCurrent(s, a.r, c.start);
      ServesAccess(s.txns[t], c, a.r, a.write, Acc(s.rows[a.r].data, a.val, s.rows[a.r].version));
    } else if a.t == t && a.Modify? {
      ServesModify(s.txns[t], c, a.r, a.val);
    } else {
      SameAccesses(s, a, t);
    }
  }

  lemma {:induction false} RunServes(s: State, schedule: seq<Action>, t: nat)
    requires Init(s) && Run(s, schedule).Some? && t < |s.txns|
    ensures t < |Run(s, schedule).value.txns| && Serves(Run(s, schedule).value.txns[t], ClientOf(s, schedule, t))
  {
    if schedule != [] {
      var n := |schedule| - 1;
      RunServes(s, schedule[..n], t);
      RunTold(s, schedule[..n]);
      RunBasic(s, schedule[..n]);
      StepServes(Run(s, schedule[..n]).value, schedule[n], t, ClientOf(s, schedule[..n], t));
    }
  }

  lemma RecordServes(t: nat, x: Txn, c: Client)
    requires Serves(x, c)
    ensures RecordOf(t, x).readSet == c.seen && RecordOf(t, x).writeSet == c.writes
  {
  }

  lemma StepTxns(s: State, a: Action)
    requires Enabled(s, a)
    ensures |Apply(s, a).txns| == |s.txns|
  {
  }

  lemma {:induction false} RunTxns(s: State, schedule: seq<Action>)
    requires Run(s, schedule).Some?
    ensures |Run(s, schedule).value.txns| == |s.txns|
  {
    if schedule != [] {
      RunTxns(s, schedule[..|schedule| - 1]);
      StepTxns(Run(s, schedule[..|schedule| - 1]).value, schedule[|schedule| - 1]);
    }
  }

  /** Every commit of every run records exactly the values its transaction saw and those it wrote last. */
  lemma CommitsAsAsked(s: State, schedule: seq<Action>, c: Committed)
    requires Init(s) && Run(s, schedule).Some? && c in Run(s, schedule).value.hist
    ensures c.readSet == ClientOf(s, schedule, c.id).seen && c.writeSet == ClientOf(s, schedule, c.id).writes
  {
    RunTold(s, schedule);
    RunTxns(s, schedule);
    RunServes(s, schedule, c.id);
    RecordServes(c.id, Run(s, schedule).value.txns[c.id], ClientOf(s, schedule, c.id));
  }
}
