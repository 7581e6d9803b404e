/**
 * What a transaction is asked to do: reads and writes of rows, one after the other. A row that is
 * written is accessed once, for writing, so a program does not read a row first and write it later.
 * Three lemmas on finite sets serve the proofs that such a program runs through.
 */
module Programs {
  import opened Serial

  datatype Op = ReadRow(r: nat) | WriteRow(r: nat, val: Value)

  /** The rows only read, and the last value written to each of the others. */
  datatype Plan = Plan(rd: set<nat>, wr: map<nat, Value>) {
    function Rows(): set<nat> { rd + wr.Keys }
  }

  /** The plan with one more operation. */
  function Then(plan: Plan, op: Op): Plan {
    match op
    case ReadRow(r) => if r in plan.wr then plan else plan.(rd := plan.rd + {r})
    case WriteRow(r, val) => plan.(wr := plan.wr[r := val])
  }

  function PlanOf(ops: seq<Op>): Plan {
    if ops == [] then Plan({}, map[]) else Then(PlanOf(ops[..|ops| - 1]), ops[|ops| - 1])
  }

  predicate Proper(ops: seq<Op>) {
    if ops == [] then true
    else
      var before, op := ops[..|ops| - 1], ops[|ops| - 1];
      Proper(before) && (op.WriteRow? ==> op.r !in PlanOf(before).rd)
  }

  lemma {:induction false} PlanApart(ops: seq<Op>)
    requires Proper(ops)
    ensures PlanOf(ops).rd !! PlanOf(ops).wr.Keys
  {
    if ops != [] { PlanApart(ops[..|ops| - 1]); }
  }

  /** What can be brought about row by row, in any order, can be brought about for all rows. */
  lemma {:induction false} ForEach(all: set<nat>, done: set<nat>, reached: set<nat> -> bool)
    requires done <= all && reached(done)
    requires forall d, r :: d <= all && r in all && r !in d && reached(d) ==> reached(d + {r})
    ensures reached(all)
    decreases |all - done|
  {
    if done != all {
      var r :| r in all && r !in done;
      assert all - (done + {r}) == (all - done) - {r};
      ForEach(all, done + {r}, reached);
    }
  }

  lemma {:induction false} Least(s: set<nat>) returns (x: nat)
    requires s != {}
    ensures x in s && forall y :: y in s ==> x <= y
    decreases |s|
  {
    var y :| y in s;
    x := y;
    if s - {y} != {} {
      var z := Least(s - {y});
      if z < y {
        x := z;
      }
    }
    assert forall z :: z in s ==> z == y || z in s - {y};
  }

  lemma {:induction false} Greatest(s: set<nat>) returns (x: nat)
    requires s != {}
    ensures x in s && forall y :: y in s ==> y <= x
    decreases |s|
  {
    var y :| y in s;
    x := y;
    if s - {y} != {} {
      var z := Greatest(s - {y});
      if z > y {
        x := z;
      }
    }
    assert forall z :: z in s ==> z == y || z in s - {y};
  }
}
