/**
 * Per-row optimistic concurrency control, the default algorithm
 * (trusted/concurrency_control/occ.cpp per_row_validate and row_occ.cpp).
 *
 * Rows are numbered in the order of (table name, primary key), the order in which validation
 * latches them. A row access runs under the row's latch and is one action.
 */
module Occ {
  import opened Wrappers
  import opened Serial

  const FREE: int := -1

  /** A row: latch holder, last update time, tuple, and the number of updates so far. */
  datatype Row = Row(latch: int, wts: nat, data: Value, version: nat)

  /** One access: the tuple copied, the value to write, the version it was. */
  datatype Acc = Acc(data: Value, val: Value, version: nat)

  datatype Phase =
    | Idle
    | Running
    | Latching(held: set<nat>)      // latched and validated so far
    | Writing(written: set<nat>)    // end_ts taken
    | Aborting

  datatype Txn = Txn(start: nat, end: nat, rd: map<nat, Acc>, wr: map<nat, Acc>, phase: Phase)

  /**
   * The two timestamp managers are `outside` (thread.cpp) and `inside` the enclave (occ.cpp);
   * `single` tells whether end timestamps come from the outer one too, as the design wants it.
   */
  datatype State = State(db: seq<Value>, rows: seq<Row>, txns: seq<Txn>, hist: seq<Committed>, outside: nat, inside: nat, single: bool)

  /** The next end timestamp. */
  function EndClock(s: State): nat {
    if s.single then s.outside else s.inside
  }

  datatype Action =
    | Begin(t: nat)
    | Access(t: nat, r: nat, write: bool, val: Value)
    | Modify(t: nat, r: nat, val: Value)
    | BeginLatching(t: nat)
    | Latch(t: nat, r: nat)
    | TakeEnd(t: nat)
    | Write(t: nat, r: nat)
    | Release(t: nat, r: nat)
    | Abort(t: nat)

  function SetTxn(s: State, t: nat, x: Txn): State
    requires t < |s.txns|
  {
    s.(txns := s.txns[t := x])
  }

  function SetRow(s: State, r: nat, row: Row): State
    requires r < |s.rows|
  {
    s.(rows := s.rows[r := row])
  }

  predicate Accessed(x: Txn, r: nat) {
    r in x.rd || r in x.wr
  }

  /** `r` is the next row to latch: the first one in sorted order that is not held. */
  predicate Next(x: Txn, r: nat) {
    && x.phase.Latching? && Accessed(x, r) && r !in x.phase.held
    && (forall q :: q in x.rd && q < r ==> q in x.phase.held)
    && (forall q :: q in x.wr && q < r ==> q in x.phase.held)
  }

  predicate Enabled(s: State, a: Action) {
    && a.t < |s.txns|
    && var x := s.txns[a.t];
       match a
       case Begin(t) => x.phase.Idle?
       case Access(t, r, w, val) => x.phase.Running? && r < |s.rows| && !Accessed(x, r) && s.rows[r].latch == FREE
       case Modify(t, r, val) => x.phase.Running? && r in x.wr
       case BeginLatching(t) => x.phase.Running?
       case Latch(t, r) => Next(x, r) && r < |s.rows| && s.rows[r].latch == FREE
       case TakeEnd(t) => x.phase.Latching? && x.phase.held == x.rd.Keys + x.wr.Keys
       case Write(t, r) => x.phase.Writing? && r in x.wr && r !in x.phase.written && r < |s.rows|
       case Release(t, r) => (x.phase.Aborting? || (x.phase.Writing? && x.phase.written == x.wr.Keys)) && r < |s.rows|
           && s.rows[r].latch == t
       case Abort(t) => x.phase.Running?
  }

  /** start_ts comes from the outer manager. */
  function DoBegin(s: State, t: nat): State
    requires Enabled(s, Begin(t))
  {
    SetTxn(s, t, s.txns[t].(start := s.outside, phase := Running)).(outside := s.outside + 1)
  }

  function DoAccess(s: State, t: nat, r: nat, w: bool, val: Value): State
    requires Enabled(s, Access(t, r, w, val))
  {
    var x, row := s.txns[t], s.rows[r];
    var a := Acc(row.data, val, row.version);
    if x.start < row.wts then SetTxn(s, t, x.(phase := Aborting))
    else if w then SetTxn(s, t, x.(wr := x.wr[r := a]))
    else SetTxn(s, t, x.(rd := x.rd[r := a]))
  }

  /** Takes the latch and validates; a failed validation still holds it. */
  function DoLatch(s: State, t: nat, r: nat): State
    requires Enabled(s, Latch(t, r))
  {
    var x, row := s.txns[t], s.rows[r];
    SetTxn(SetRow(s, r, row.(latch := t)), t,
           if x.start < row.wts then x.(phase := Aborting) else x.(phase := Latching(x.phase.held + {r})))
  }

  function RecordOf(t: nat, x: Txn): Committed {
    Committed(t, x.end,
              map r | r in x.rd.Keys + x.wr.Keys :: if r in x.rd then x.rd[r].data else x.wr[r].data,
              map r | r in x.wr :: x.wr[r].val)
  }

  function DoTakeEnd(s: State, t: nat): State
    requires Enabled(s, TakeEnd(t))
  {
    var y := s.txns[t].(end := EndClock(s), phase := Writing({}));
    var s' := SetTxn(s, t, y).(hist := Insert(s.hist, RecordOf(t, y)));
    if s.single then s'.(outside := s.outside + 1) else s'.(inside := s.inside + 1)
  }

  function DoWrite(s: State, t: nat, r: nat): State
    requires Enabled(s, Write(t, r))
  {
    var x := s.txns[t];
    SetTxn(SetRow(s, r, Row(s.rows[r].latch, x.end, x.wr[r].val, s.rows[r].version + 1)), t,
           x.(phase := Writing(x.phase.written + {r})))
  }

  function Apply(s: State, a: Action): State
    requires Enabled(s, a)
  {
    var x := s.txns[a.t];
    match a
    case Begin(t) => DoBegin(s, t)
    case Access(t, r, w, val) => DoAccess(s, t, r, w, val)
    case Modify(t, r, val) => SetTxn(s, t, x.(wr := x.wr[r := x.wr[r].(val := val)]))
    case BeginLatching(t) => SetTxn(s, t, x.(phase := Latching({})))
    case Latch(t, r) => DoLatch(s, t, r)
    case TakeEnd(t) => DoTakeEnd(s, t)
    case Write(t, r) => DoWrite(s, t, r)
    case Release(t, r) => SetRow(s, r, s.rows[r].(latch := FREE))
    case Abort(t) => SetTxn(s, t, x.(phase := Aborting))
  }

  const FRESH := Txn(0, 0, map[], map[], Idle)

  /** Both managers start at 1, rows at wts 0. */
  predicate Init(s: State) {
    && |s.db| == |s.rows| && s.hist == [] && s.outside == 1 && s.inside == 1
    && (forall r :: 0 <= r < |s.rows| ==> s.rows[r] == Row(FREE, 0, s.db[r], 0))
    && (forall t :: 0 <= t < |s.txns| ==> s.txns[t] == FRESH)
  }

  function Run(s: State, schedule: seq<Action>): Option<State> {
    if schedule == [] then Some(s)
    else
      match Run(s, schedule[..|schedule| - 1])
      case None => None
      case Some(m) =>
        var a := schedule[|schedule| - 1];
        if Enabled(m, a) then Some(Apply(m, a)) else None
  }
}
