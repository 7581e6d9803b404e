/**
 * Silo: optimistic concurrency control with per-row transaction ids
 * (trusted/concurrency_control/silo.cpp and row_silo.cpp, ATOMIC_WORD build).
 *
 * As in TicToc, the actions are the single accesses to shared words and rows; sets are
 * walked in any order, and a transaction may abort wherever the code can.
 */
module Silo {
  import opened Wrappers
  import opened Serial

  const FREE: int := -1

  /** A row: lock bit (with its holder), the transaction id of its last writer, its tuple. */
  datatype Row = Row(lock: int, tid: nat, data: Value)

  /** One access: the id and tuple copied, the value to install, and how many transactions had completed their locks then. */
  datatype Acc = Acc(tid: nat, data: Value, val: Value, when: nat)

  datatype Phase =
    | Running
    | Peeked(row: nat, write: bool, v: nat)                 // access(): first read of the word
    | Copied(row: nat, write: bool, v: nat, copy: Value)    // access(): tuple copied
    | Locking(checked: set<nat>)                            // locking the write set
    | Validating(valid: set<nat>)                           // write locks complete, validating the read set
    | Installing(written: set<nat>, worded: set<nat>)       // committed, writing back
    | Aborting

  /** `stamp` numbers the moment the write locks became complete; `cur` is the thread's _cur_tid. */
  datatype Txn = Txn(rd: map<nat, Acc>, wr: map<nat, Acc>, stamp: nat, cur: nat, phase: Phase)

  datatype State = State(db: seq<Value>, rows: seq<Row>, txns: seq<Txn>, hist: seq<Committed>, clock: nat)

  datatype Action =
    | Peek(t: nat, r: nat, write: bool)
    | CopyRow(t: nat)
    | Recheck(t: nat, val: Value)
    | Modify(t: nat, r: nat, val: Value)
    | BeginLocking(t: nat)
    | TryLock(t: nat, r: nat)
    | Check(t: nat, r: nat)
    | Unlock(t: nat, r: nat)
    | LocksComplete(t: nat)
    | Validate(t: nat, r: nat)
    | Commit(t: nat, maxTid: nat)
    | WriteData(t: nat, r: nat)
    | WriteWord(t: nat, r: nat)
    | Release(t: nat, r: nat)
    | Abort(t: nat)

  function SetTxn(s: State, t: nat, x: Txn): State
    requires t < |s.txns|
  {
    s.(txns := s.txns[t := x])
  }

  function SetRow(s: State, r: nat, row: Row): State
    requires r < |s.rows|
  {
    s.(rows := s.rows[r := row])
  }

  /** max_tid over all accesses, 0 when there is none. */
  predicate IsMaxTid(rd: map<nat, Acc>, wr: map<nat, Acc>, m: nat) {
    && (forall r :: r in rd ==> rd[r].tid <= m)
    && (forall r :: r in wr ==> wr[r].tid <= m)
    && (m == 0 || (exists r :: r in rd && rd[r].tid == m) || (exists r :: r in wr && wr[r].tid == m))
  }

  function NextTid(cur: nat, maxTid: nat): nat {
    if maxTid > cur then maxTid + 1 else cur + 1
  }

  predicate Enabled(s: State, a: Action) {
    && a.t < |s.txns|
    && var x := s.txns[a.t];
       match a
       case Peek(t, r, w) => x.phase.Running? && r < |s.rows| && r !in x.rd && r !in x.wr && s.rows[r].lock == FREE
       case CopyRow(t) => x.phase.Peeked? && x.phase.row < |s.rows|
       case Recheck(t, val) => x.phase.Copied? && x.phase.row < |s.rows|
       case Modify(t, r, val) => x.phase.Running? && r in x.wr
       case BeginLocking(t) => x.phase.Running?
       case TryLock(t, r) => x.phase.Locking? && r in x.wr && r < |s.rows| && s.rows[r].lock == FREE
       case Check(t, r) => x.phase.Locking? && r in x.wr && r < |s.rows| && s.rows[r].lock == t
       case Unlock(t, r) => (x.phase.Locking? || x.phase.Aborting?) && r < |s.rows| && s.rows[r].lock == t
       case LocksComplete(t) => x.phase.Locking? && x.phase.checked == x.wr.Keys
       case Validate(t, r) => x.phase.Validating? && r in x.rd && r < |s.rows|
       case Commit(t, m) => x.phase.Validating? && x.phase.valid == x.rd.Keys && IsMaxTid(x.rd, x.wr, m)
       case WriteData(t, r) => x.phase.Installing? && r in x.wr && r !in x.phase.written && r < |s.rows|
       case WriteWord(t, r) => x.phase.Installing? && r in x.phase.written && r !in x.phase.worded && r < |s.rows|
       case Release(t, r) => x.phase.Installing? && r in x.phase.worded && r < |s.rows| && s.rows[r].lock == t
       case Abort(t) => !x.phase.Installing?
  }

  /** Second read of the word: it must be the very same word. */
  function DoRecheck(s: State, t: nat, val: Value): State
    requires Enabled(s, Recheck(t, val))
  {
    var x := s.txns[t];
    var p := x.phase;
    var row := s.rows[p.row];
    var a := Acc(p.v, p.copy, val, s.clock);
    if row.lock != FREE || row.tid != p.v then SetTxn(s, t, x.(phase := Running))
    else if p.write then SetTxn(s, t, x.(phase := Running, wr := x.wr[p.row := a]))
    else SetTxn(s, t, x.(phase := Running, rd := x.rd[p.row := a]))
  }

  function DoCheck(s: State, t: nat, r: nat): State
    requires Enabled(s, Check(t, r))
  {
    var x := s.txns[t];
    if s.rows[r].tid == x.wr[r].tid then SetTxn(s, t, x.(phase := Locking(x.phase.checked + {r})))
    else SetTxn(s, t, x.(phase := Aborting))
  }

  function DoUnlock(s: State, t: nat, r: nat): State
    requires Enabled(s, Unlock(t, r))
  {
    var x := s.txns[t];
    var y := if x.phase.Locking? then x.(phase := Locking(x.phase.checked - {r})) else x;
    SetTxn(SetRow(s, r, s.rows[r].(lock := FREE)), t, y)
  }

  /** The moment that fixes the place of the transaction in the serial order. */
  function DoLocksComplete(s: State, t: nat): State
    requires Enabled(s, LocksComplete(t))
  {
    SetTxn(s, t, s.txns[t].(stamp := s.clock, phase := Validating({}))).(clock := s.clock + 1)
  }

  function DoValidate(s: State, t: nat, r: nat): State
    requires Enabled(s, Validate(t, r))
  {
    var x := s.txns[t];
    if s.rows[r].lock == FREE && s.rows[r].tid == x.rd[r].tid then SetTxn(s, t, x.(phase := Validating(x.phase.valid + {r})))
    else SetTxn(s, t, x.(phase := Aborting))
  }

  function RecordOf(t: nat, x: Txn): Committed {
    Committed(t, x.stamp,
              map r | r in x.rd.Keys + x.wr.Keys :: if r in x.rd then x.rd[r].data else x.wr[r].data,
              map r | r in x.wr :: x.wr[r].val)
  }

  function DoCommit(s: State, t: nat, m: nat): State
    requires Enabled(s, Commit(t, m))
  {
    var x := s.txns[t];
    SetTxn(s, t, x.(cur := NextTid(x.cur, m), phase := Installing({}, {}))).(hist := Insert(s.hist, RecordOf(t, x)))
  }

  function DoWriteData(s: State, t: nat, r: nat): State
    requires Enabled(s, WriteData(t, r))
  {
    var x := s.txns[t];
    SetTxn(SetRow(s, r, s.rows[r].(data := x.wr[r].val)), t, x.(phase := Installing(x.phase.written + {r}, x.phase.worded)))
  }

  function DoWriteWord(s: State, t: nat, r: nat): State
    requires Enabled(s, WriteWord(t, r))
  {
    var x := s.txns[t];
    SetTxn(SetRow(s, r, s.rows[r].(tid := x.cur)), t, x.(phase := Installing(x.phase.written, x.phase.worded + {r})))
  }

  function Apply(s: State, a: Action): State
    requires Enabled(s, a)
  {
    var x := s.txns[a.t];
    match a
    case Peek(t, r, w) => SetTxn(s, t, x.(phase := Peeked(r, w, s.rows[r].tid)))
    case CopyRow(t) => SetTxn(s, t, x.(phase := Copied(x.phase.row, x.phase.write, x.phase.v, s.rows[x.phase.row].data)))
    case Recheck(t, val) => DoRecheck(s, t, val)
    case Modify(t, r, val) => SetTxn(s, t, x.(wr := x.wr[r := x.wr[r].(val := val)]))
    case BeginLocking(t) => SetTxn(s, t, x.(phase := Locking({})))
    case TryLock(t, r) => SetRow(s, r, s.rows[r].(lock := t))
    case Check(t, r) => DoCheck(s, t, r)
    case Unlock(t, r) => DoUnlock(s, t, r)
    case LocksComplete(t) => DoLocksComplete(s, t)
    case Validate(t, r) => DoValidate(s, t, r)
    case Commit(t, m) => DoCommit(s, t, m)
    case WriteData(t, r) => DoWriteData(s, t, r)
    case WriteWord(t, r) => DoWriteWord(s, t, r)
    case Release(t, r) => SetRow(s, r, s.rows[r].(lock := FREE))
    case Abort(t) => SetTxn(s, t, x.(phase := Aborting))
  }

  /** Any table, any ids left by earlier transactions, any thread-local ids. */
  predicate Init(s: State) {
    && |s.db| == |s.rows| && s.hist == []
    && (forall r :: 0 <= r < |s.rows| ==> s.rows[r].lock == FREE && s.rows[r].data == s.db[r])
    && (forall t :: 0 <= t < |s.txns| ==> s.txns[t].rd == map[] && s.txns[t].wr == map[] && s.txns[t].phase == Running)
  }

  function Run(s: State, schedule: seq<Action>): Option<State> {
    if schedule == [] then Some(s)
    else
      match Run(s, schedule[..|schedule| - 1])
      case None => None
      case Some(m) =>
        var a := schedule[|schedule| - 1];
        if Enabled(m, a) then Some(Apply(m, a)) else None
  }
}
