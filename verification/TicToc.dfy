/**
 * TicToc: optimistic concurrency control with logical commit timestamps
 * (trusted/concurrency_control/tictoc.cpp and row_tictoc.cpp, ATOMIC_WORD build, separate
 * write validation, SERIALIZABLE).
 *
 * The protocol is a state machine whose actions are the single reads, writes and
 * compare-and-swaps of the shared words and rows; everything between two of them is local to
 * one transaction. Loops over the read or write set may take their rows in any order here,
 * and a transaction may give up wherever the code has an abort path, so every run of the
 * code is a run of this machine.
 */
module TicToc {
  import opened Wrappers
  import opened Serial

  /** Number of lease lengths a word can hold: 1 << RTS_LEN. */
  const LEASES: nat := 0x8000

  /** Value of `lock` when the lock bit is clear. */
  const FREE: int := -1

  /** The timestamp part of a row's word: the version is valid from wts to wts + len. */
  datatype Word = Word(wts: nat, len: nat) {
    function Rts(): nat { wts + len }
  }

  /** A row: its lock bit (with the transaction that set it), its word, its tuple. */
  datatype Row = Row(lock: int, word: Word, data: Value)

  /** One access of a transaction: the word and tuple it copied, and the value it will install. */
  datatype Acc = Acc(wts: nat, rts: nat, data: Value, val: Value)

  datatype Phase =
    | Running
    | Peeked(row: nat, write: bool, v: Word)                 // access(): first read of the word
    | Copied(row: nat, write: bool, v: Word, copy: Value)    // access(): tuple copied
    | Locking(checked: set<nat>)                             // locking the write set
    | Raising(raised: set<nat>)                              // raising commit_wts
    | Validating(valid: set<nat>)                            // validating the read set
    | Renewing(valid: set<nat>, renewing: nat, v: Word)      // try_renew(): before a compare-and-swap
    | Installing(worded: set<nat>, copied: set<nat>)         // committed, writing back
    | Aborting                                               // releasing the locks it still holds

  datatype Txn = Txn(rd: map<nat, Acc>, wr: map<nat, Acc>, cts: nat, phase: Phase)

  /** `db` is the initial table, `hist` the committed transactions in serial order. */
  datatype State = State(db: seq<Value>, rows: seq<Row>, txns: seq<Txn>, hist: seq<Committed>)

  datatype Action =
    | Peek(t: nat, r: nat, write: bool)
    | CopyRow(t: nat)
    | Recheck(t: nat, val: Value)
    | Modify(t: nat, r: nat, val: Value)
    | BeginLocking(t: nat, cts: nat)
    | TryLock(t: nat, r: nat)
    | Check(t: nat, r: nat)
    | Unlock(t: nat, r: nat)
    | BeginRaising(t: nat)
    | Raise(t: nat, r: nat)
    | BeginValidating(t: nat)
    | KeepLease(t: nat, r: nat)
    | Look(t: nat, r: nat)
    | Swap(t: nat)
    | Commit(t: nat)
    | WriteWord(t: nat, r: nat)
    | WriteData(t: nat, r: nat)
    | Release(t: nat, r: nat)
    | Abort(t: nat)

  // ----- the actions

  function SetTxn(s: State, t: nat, x: Txn): State
    requires t < |s.txns|
  {
    s.(txns := s.txns[t := x])
  }

  function SetRow(s: State, r: nat, row: Row): State
    requires r < |s.rows|
  {
    s.(rows := s.rows[r := row])
  }

  /** commit_wts as the first loop computes it: the largest read wts and written rts + 1, or 0. */
  predicate IsCommitTs(rd: map<nat, Acc>, wr: map<nat, Acc>, cts: nat) {
    && (forall r :: r in rd ==> rd[r].wts <= cts)
    && (forall r :: r in wr ==> wr[r].rts < cts)
    && (cts == 0 || (exists r :: r in rd && rd[r].wts == cts) || (exists r :: r in wr && wr[r].rts + 1 == cts))
  }

  /** The word try_renew() wants to store: rebased when the lease length needs more than 15 bits. */
  function Renewed(wts: nat, cts: nat): Word
    requires wts <= cts
  {
    var delta := cts - wts;
    Word(wts + (delta - delta % LEASES), delta % LEASES)
  }

  /**
   * The exit test after a failed compare-and-swap. The code compares the absolute timestamp
   * with the lease length; `byLength` compares two lengths, as the test before the loop does.
   */
  predicate LongEnough(byLength: bool, wts: nat, cts: nat, len: nat)
    requires wts <= cts
  {
    if byLength then cts - wts < len else cts < len
  }

  predicate Enabled(s: State, a: Action) {
    && a.t < |s.txns|
    && var x := s.txns[a.t];
       match a
       case Peek(t, r, w) => x.phase.Running? && r < |s.rows| && r !in x.rd && r !in x.wr && s.rows[r].lock == FREE
       case CopyRow(t) => x.phase.Peeked? && x.phase.row < |s.rows|
       case Recheck(t, val) => x.phase.Copied? && x.phase.row < |s.rows|
       case Modify(t, r, val) => x.phase.Running? && r in x.wr
       case BeginLocking(t, cts) => x.phase.Running? && IsCommitTs(x.rd, x.wr, cts)
       case TryLock(t, r) => x.phase.Locking? && r in x.wr && r < |s.rows| && s.rows[r].lock == FREE
       case Check(t, r) => x.phase.Locking? && r in x.wr && r < |s.rows| && s.rows[r].lock == t
       case Unlock(t, r) => (x.phase.Locking? || x.phase.Aborting?) && r < |s.rows| && s.rows[r].lock == t
       case BeginRaising(t) => x.phase.Locking? && x.phase.checked == x.wr.Keys
       case Raise(t, r) => x.phase.Raising? && r in x.wr && r < |s.rows|
       case BeginValidating(t) => x.phase.Raising? && x.phase.raised == x.wr.Keys
       case KeepLease(t, r) => x.phase.Validating? && r in x.rd && x.cts <= x.rd[r].rts
       case Look(t, r) => x.phase.Validating? && r in x.rd && r < |s.rows| && x.rd[r].rts < x.cts && x.rd[r].wts <= x.cts
       case Swap(t) => x.phase.Renewing? && x.phase.renewing in x.rd && x.phase.renewing < |s.rows| && x.rd[x.phase.renewing].wts <= x.cts
       case Commit(t) => x.phase.Validating? && x.phase.valid == x.rd.Keys
       case WriteWord(t, r) => x.phase.Installing? && r in x.wr && r !in x.phase.worded && r < |s.rows|
       case WriteData(t, r) => x.phase.Installing? && r in x.wr && r in x.phase.worded && r !in x.phase.copied && r < |s.rows|
       case Release(t, r) => x.phase.Installing? && r in x.phase.copied && r < |s.rows| && s.rows[r].lock == t
       case Abort(t) => !x.phase.Installing?
  }

  function DoPeek(s: State, t: nat, r: nat, w: bool): State
    requires Enabled(s, Peek(t, r, w))
  {
    SetTxn(s, t, s.txns[t].(phase := Peeked(r, w, s.rows[r].word)))
  }

  function DoCopyRow(s: State, t: nat): State
    requires Enabled(s, CopyRow(t))
  {
    var p := s.txns[t].phase;
    SetTxn(s, t, s.txns[t].(phase := Copied(p.row, p.write, p.v, s.rows[p.row].data)))
  }

  /** Second read of the word: lock bit clear and the same wts accept the copy, anything else loops. */
  function DoRecheck(s: State, t: nat, val: Value): State
    requires Enabled(s, Recheck(t, val))
  {
    var x := s.txns[t];
    var p := x.phase;
    var row := s.rows[p.row];
    var a := Acc(p.v.wts, p.v.Rts(), p.copy, val);
    if row.lock != FREE || row.word.wts != p.v.wts then SetTxn(s, t, x.(phase := Running))
    else if p.write then SetTxn(s, t, x.(phase := Running, wr := x.wr[p.row := a]))
    else SetTxn(s, t, x.(phase := Running, rd := x.rd[p.row := a]))
  }

  function DoModify(s: State, t: nat, r: nat, val: Value): State
    requires Enabled(s, Modify(t, r, val))
  {
    var x := s.txns[t];
    SetTxn(s, t, x.(wr := x.wr[r := x.wr[r].(val := val)]))
  }

  function DoTryLock(s: State, t: nat, r: nat): State
    requires Enabled(s, TryLock(t, r))
  {
    SetRow(s, r, s.rows[r].(lock := t))
  }

  /** After locking: the version must still be the one that was read. */
  function DoCheck(s: State, t: nat, r: nat): State
    requires Enabled(s, Check(t, r))
  {
    var x := s.txns[t];
    if s.rows[r].word.wts == x.wr[r].wts then SetTxn(s, t, x.(phase := Locking(x.phase.checked + {r})))
    else SetTxn(s, t, x.(phase := Aborting))
  }

  /** Releases one lock, on the way back to a new locking attempt or out of an abort. */
  function DoUnlock(s: State, t: nat, r: nat): State
    requires Enabled(s, Unlock(t, r))
  {
    var x := s.txns[t];
    var y := if x.phase.Locking? then x.(phase := Locking(x.phase.checked - {r})) else x;
    SetTxn(SetRow(s, r, s.rows[r].(lock := FREE)), t, y)
  }

  function DoRaise(s: State, t: nat, r: nat): State
    requires Enabled(s, Raise(t, r))
  {
    var x := s.txns[t];
    var rts := s.rows[r].word.Rts();
    SetTxn(s, t, x.(cts := if rts + 1 > x.cts then rts + 1 else x.cts, phase := Raising(x.phase.raised + {r})))
  }

  function DoKeepLease(s: State, t: nat, r: nat): State
    requires Enabled(s, KeepLease(t, r))
  {
    SetTxn(s, t, s.txns[t].(phase := Validating(s.txns[t].phase.valid + {r})))
  }

  /** try_renew() up to its first compare-and-swap. */
  function DoLook(s: State, t: nat, r: nat): State
    requires Enabled(s, Look(t, r))
  {
    var x, row := s.txns[t], s.rows[r];
    if row.word.wts == x.rd[r].wts && row.word.len >= x.cts - x.rd[r].wts then
      SetTxn(s, t, x.(phase := Validating(x.phase.valid + {r})))
    else if row.lock != FREE || row.word.wts != x.rd[r].wts then
      SetTxn(s, t, x.(phase := Aborting))
    else
      SetTxn(s, t, x.(phase := Renewing(x.phase.valid, r, row.word)))
  }

  /** One compare-and-swap of try_renew() and the tests that follow a failed one. */
  function DoSwap(s: State, t: nat, byLength: bool): State
    requires Enabled(s, Swap(t))
  {
    var x := s.txns[t];
    var r := x.phase.renewing;
    var a, row := x.rd[r], s.rows[r];
    var done := x.(phase := Validating(x.phase.valid + {r}));
    if row.lock == FREE && row.word == x.phase.v then
      SetTxn(SetRow(s, r, row.(word := Renewed(a.wts, x.cts))), t, done)
    else if x.cts - a.wts >= LEASES || row.lock != FREE || row.word.wts != a.wts then
      SetTxn(s, t, x.(phase := Aborting))
    else if LongEnough(byLength, a.wts, x.cts, row.word.len) then
      SetTxn(s, t, done)
    else
      SetTxn(s, t, x.(phase := Renewing(x.phase.valid, r, row.word)))
  }

  /** What a transaction did: the tuples it copied and the tuples it installs. */
  function RecordOf(t: nat, x: Txn): Committed {
    Committed(t, x.cts,
              map r | r in x.rd.Keys + x.wr.Keys :: if r in x.rd then x.rd[r].data else x.wr[r].data,
              map r | r in x.wr :: x.wr[r].val)
  }

  function DoCommit(s: State, t: nat): State
    requires Enabled(s, Commit(t))
  {
    SetTxn(s, t, s.txns[t].(phase := Installing({}, {}))).(hist := Insert(s.hist, RecordOf(t, s.txns[t])))
  }

  function DoWriteWord(s: State, t: nat, r: nat): State
    requires Enabled(s, WriteWord(t, r))
  {
    var x := s.txns[t];
    SetTxn(SetRow(s, r, s.rows[r].(word := Word(x.cts, 0))), t, x.(phase := Installing(x.phase.worded + {r}, x.phase.copied)))
  }

  function DoWriteData(s: State, t: nat, r: nat): State
    requires Enabled(s, WriteData(t, r))
  {
    var x := s.txns[t];
    SetTxn(SetRow(s, r, s.rows[r].(data := x.wr[r].val)), t, x.(phase := Installing(x.phase.worded, x.phase.copied + {r})))
  }

  function DoRelease(s: State, t: nat, r: nat): State
    requires Enabled(s, Release(t, r))
  {
    SetRow(s, r, s.rows[r].(lock := FREE))
  }

  function Apply(s: State, a: Action, byLength: bool): State
    requires Enabled(s, a)
  {
    var x := s.txns[a.t];
    match a
    case Peek(t, r, w) => DoPeek(s, t, r, w)
    case CopyRow(t) => DoCopyRow(s, t)
    case Recheck(t, val) => DoRecheck(s, t, val)
    case Modify(t, r, val) => DoModify(s, t, r, val)
    case BeginLocking(t, cts) => SetTxn(s, t, x.(phase := Locking({}), cts := cts))
    case TryLock(t, r) => DoTryLock(s, t, r)
    case Check(t, r) => DoCheck(s, t, r)
    case Unlock(t, r) => DoUnlock(s, t, r)
    case BeginRaising(t) => SetTxn(s, t, x.(phase := Raising({})))
    case Raise(t, r) => DoRaise(s, t, r)
    case BeginValidating(t) => SetTxn(s, t, x.(phase := Validating({})))
    case KeepLease(t, r) => DoKeepLease(s, t, r)
    case Look(t, r) => DoLook(s, t, r)
    case Swap(t) => DoSwap(s, t, byLength)
    case Commit(t) => DoCommit(s, t)
    case WriteWord(t, r) => DoWriteWord(s, t, r)
    case WriteData(t, r) => DoWriteData(s, t, r)
    case Release(t, r) => DoRelease(s, t, r)
    case Abort(t) => SetTxn(s, t, x.(phase := Aborting))
  }

  // ----- runs

  /** Any table, any leases (of 15 bits) left by earlier transactions, nothing locked, nobody started. */
  predicate Init(s: State) {
    && |s.db| == |s.rows|
    && s.hist == []
    && (forall r :: 0 <= r < |s.rows| ==> s.rows[r].lock == FREE && s.rows[r].data == s.db[r] && s.rows[r].word.len < LEASES)
    && (forall t :: 0 <= t < |s.txns| ==> s.txns[t] == Txn(map[], map[], 0, Running))
  }

  /** The state after a schedule, or None when an action of it is not enabled. */
  function Run(s: State, schedule: seq<Action>, byLength: bool): Option<State> {
    if schedule == [] then Some(s)
    else
      match Run(s, schedule[..|schedule| - 1], byLength)
      case None => None
      case Some(m) =>
        var a := schedule[|schedule| - 1];
        if Enabled(m, a) then Some(Apply(m, a, byLength)) else None
  }
}
