/**
 * The version chain of a page hash (trusted/system/hash_chain.h): a list sorted by commit
 * timestamp with insertion anywhere, lookup and vacuuming.
 */
module VersionChain {
  import opened Wrappers

  datatype Item = Item(ts: nat, value: nat)

  predicate Sorted(c: seq<Item>) {
    forall i, j :: 0 <= i < j < |c| ==> c[i].ts < c[j].ts
  }

  function Elements(c: seq<Item>): set<Item> {
    set i | 0 <= i < |c| :: c[i]
  }

  /** `x` contradicts no version of the chain. */
  predicate Agrees(c: seq<Item>, x: Item) {
    forall i :: 0 <= i < |c| && c[i].ts == x.ts ==> c[i] == x
  }

  /** `x` is the greatest version at or below `ts`. */
  ghost predicate IsVersionAt(s: set<Item>, ts: nat, x: Item) {
    x in s && x.ts <= ts && forall y :: y in s && y.ts <= ts ==> y.ts <= x.ts
  }

  // ----- what a sorted chain is: one order for each set of versions

  lemma {:induction false} SortedUnique(a: seq<Item>, b: seq<Item>)
    requires Sorted(a) && Sorted(b) && Elements(a) == Elements(b)
    ensures a == b
  {
    assert b != [] ==> b[0] in Elements(a);
    if a != [] {
      assert a[0] in Elements(b);
      assert b != [];
      assert b[0] in Elements(a) && a[|a| - 1] in Elements(b) && b[|b| - 1] in Elements(a);
      assert a[|a| - 1] == b[|b| - 1];
      ElementsInit(a);
      ElementsInit(b);
      SortedUnique(a[..|a| - 1], b[..|b| - 1]);
      assert a == a[..|a| - 1] + [a[|a| - 1]] && b == b[..|b| - 1] + [b[|b| - 1]];
    }
  }

  lemma ElementsInit(a: seq<Item>)
    requires Sorted(a) && a != []
    ensures Elements(a[..|a| - 1]) == Elements(a) - {a[|a| - 1]}
  {
    var p := a[..|a| - 1];
    forall x | x in Elements(a) && x != a[|a| - 1]
      ensures x in Elements(p)
    {
      var i :| 0 <= i < |a| && a[i] == x;
      assert p[i] == x;
    }
  }

  lemma ElementsInsert(c: seq<Item>, i: nat, x: Item)
    requires i <= |c|
    ensures Elements(c[..i] + [x] + c[i..]) == Elements(c) + {x}
  {
    var d := c[..i] + [x] + c[i..];
    forall y | y in Elements(c) + {x}
      ensures y in Elements(d)
    {
      if y == x {
        assert d[i] == y;
      } else {
        var j :| 0 <= j < |c| && c[j] == y;
        assert d[if j < i then j else j + 1] == y;
      }
    }
  }

  // ----- the chain

  class HashChain {
    var items: seq<Item>
    var size: nat

    ghost predicate Valid()
      reads this
    {
      Sorted(items) && size == |items|
    }

    constructor ()
      ensures Valid() && items == []
    {
      items, size := [], 0;
    }

    /** insert; false when the program's assertion on a repeated timestamp fails. */
    method Insert(ts: nat, value: nat) returns (ok: bool)
      requires Valid()
      modifies this
      ensures Valid()
      ensures ok <==> Agrees(old(items), Item(ts, value))
      ensures Elements(items) == Elements(old(items)) + if ok then {Item(ts, value)} else {}
    {
      var x := Item(ts, value);
      size := size + 1;
      if items == [] {
        ElementsInsert(items, 0, x);
        assert items[..0] + [x] + items[0..] == [x];
        items := [x];
        return true;
      }
      var tail := items[|items| - 1];
      if ts > tail.ts {
        ElementsInsert(items, |items|, x);
        assert items[..|items|] + [x] + items[|items|..] == items + [x];
        items := items + [x];
        return true;
      }
      if ts < items[0].ts {
        ElementsInsert(items, 0, x);
        assert items[..0] + [x] + items[0..] == [x] + items;
        items := [x] + items;
        return true;
      }
      var i := 0;
      while i < |items|
        invariant 0 <= i <= |items| && items == old(items) && size == |items| + 1
        invariant forall j :: 0 <= j < i ==> items[j].ts < ts
      {
        if ts == items[i].ts {
          ok := value == items[i].value;
          size := size - 1;
          if ok {
            assert Elements(items) == Elements(items) + {x};
          }
          return;
        }
        if items[i].ts > ts {
          ElementsInsert(items, i, x);
          items := items[..i] + [x] + items[i..];
          return true;
        }
        i := i + 1;
      }
      assert false;
    }

    /** get: the version at `ts`, or none below the chain; the length is the chain's. */
    method Get(ts: nat) returns (r: Option<Item>, length: nat)
      requires Valid()
      ensures r == None <==> forall x :: x in Elements(items) ==> x.ts > ts
      ensures r.Some? ==> IsVersionAt(Elements(items), ts, r.value)
      ensures length == |items|
    {
      length := size;
      if size == 0 {
        return None, 0;
      }
      var tail := items[|items| - 1];
      assert items[0] in Elements(items) && tail in Elements(items);
      if ts >= tail.ts {
        return Some(tail), length;
      }
      if ts < items[0].ts {
        return None, length;
      }
      var i, last := 0, items[0];
      while i < |items|
        invariant 0 <= i <= |items| && last == items[if i == 0 then 0 else i - 1] && last in Elements(items)
        invariant forall j :: 0 <= j < i ==> items[j].ts <= ts
      {
        if ts < items[i].ts {
          return Some(last), length;
        }
        last := items[i];
        i := i + 1;
      }
      r := Some(tail);
    }

    /** vaccum: drops versions, never one that is the version at a timestamp from `validTs` on. */
    method Vacuum(validTs: nat)
      requires Valid()
      modifies this
      ensures Valid()
      ensures exists k :: 0 <= k <= old(|items|) && items == old(items)[k..] && (k > 0 ==> items != [] && items[0].ts <= validTs)
      ensures forall ts, x :: ts >= validTs ==> (IsVersionAt(Elements(items), ts, x) <==> IsVersionAt(Elements(old(items)), ts, x))
      ensures |items| > 1 ==> items[1].ts > validTs
    {
      ghost var k := 0;
      while size > 1 && items[1].ts <= validTs
        invariant Valid() && 0 <= k <= |old(items)| && items == old(items)[k..] && (k > 0 ==> items != [] && items[0].ts <= validTs)
        invariant forall ts, x :: ts >= validTs ==> (IsVersionAt(Elements(items), ts, x) <==> IsVersionAt(Elements(old(items)), ts, x))
        decreases size
      {
        DropHead(items, validTs);
        items := items[1..];
        size := size - 1;
        k := k + 1;
      }
    }
  }

  /** The head is not the version at any timestamp from its successor's on. */
  lemma DropHead(c: seq<Item>, validTs: nat)
    requires Sorted(c) && |c| > 1 && c[1].ts <= validTs
    ensures forall ts, x :: ts >= validTs ==> (IsVersionAt(Elements(c[1..]), ts, x) <==> IsVersionAt(Elements(c), ts, x))
  {
    ElementsTail(c);
    assert c[1] in Elements(c[1..]) && c[1] in Elements(c) by {
      assert c[1..][0] == c[1];
    }
  }

  lemma ElementsTail(c: seq<Item>)
    requires c != []
    ensures Elements(c) == Elements(c[1..]) + {c[0]}
  {
    ElementsInsert(c[1..], 0, c[0]);
    assert c[1..][..0] + [c[0]] + c[1..][0..] == c;
  }

  // ----- arrival order

  /** What a sequence of arrivals makes of an empty chain, by the contract of `Insert`. */
  ghost predicate Result(arrivals: seq<Item>, c: seq<Item>) {
    Sorted(c) && Elements(c) == Elements(arrivals)
  }

  /** No two arrivals contradict each other. */
  predicate Consistent(arrivals: seq<Item>) {
    forall i, j :: 0 <= i < |arrivals| && 0 <= j < |arrivals| && arrivals[i].ts == arrivals[j].ts ==> arrivals[i] == arrivals[j]
  }

  /** Any order of agreeing arrivals is accepted and gives the chain of their set. */
  method InsertAll(arrivals: seq<Item>) returns (c: seq<Item>)
    requires Consistent(arrivals)
    ensures Result(arrivals, c)
  {
    var chain := new HashChain();
    var i := 0;
    while i < |arrivals|
      invariant 0 <= i <= |arrivals| && fresh(chain) && chain.Valid() && Elements(chain.items) == Elements(arrivals[..i])
    {
      var x := arrivals[i];
      forall j | 0 <= j < |chain.items| && chain.items[j].ts == x.ts
        ensures chain.items[j] == x
      {
        assert chain.items[j] in Elements(arrivals[..i]);
      }
      var ok := chain.Insert(x.ts, x.value);
      ElementsInsert(arrivals[..i], i, x);
      assert arrivals[..i][..i] + [x] + arrivals[..i][i..] == arrivals[..i + 1];
      i := i + 1;
    }
    assert arrivals[..i] == arrivals;
    c := chain.items;
  }

  /** So the chain does not depend on the order, nor on repetitions. */
  lemma OrderIndependent(a: seq<Item>, b: seq<Item>, c: seq<Item>, d: seq<Item>)
    requires Elements(a) == Elements(b) && Result(a, c) && Result(b, d)
    ensures c == d
  {
    SortedUnique(c, d);
  }

  // ----- insertions and vacuuming together

  datatype Op = Add(x: Item) | Clean(validTs: nat)

  function Added(ops: seq<Op>): set<Item> {
    if ops == [] then {}
    else
      var op := ops[|ops| - 1];
      Added(ops[..|ops| - 1]) + if op.Add? then {op.x} else {}
  }

  predicate BoundedBy(ops: seq<Op>, v: nat) {
    forall i :: 0 <= i < |ops| && ops[i].Clean? ==> ops[i].validTs <= v
  }

  /** Lookups from `v` on are the same in both sets. */
  ghost predicate SameFrom(a: set<Item>, b: set<Item>, v: nat) {
    forall ts, x :: ts >= v ==> (IsVersionAt(a, ts, x) <==> IsVersionAt(b, ts, x))
  }

  /** The chain keeps a part of the versions; each other one has a later one up to `v` in it. */
  ghost predicate Covers(c: seq<Item>, all: set<Item>, v: nat) {
    && Elements(c) <= all
    && forall z :: z in all && z !in Elements(c) ==> exists w :: w in Elements(c) && z.ts < w.ts <= v
  }

  lemma CoversLookups(c: seq<Item>, all: set<Item>, v: nat)
    requires Covers(c, all, v)
    ensures SameFrom(Elements(c), all, v)
  {
  }

  lemma CoversAdded(c: seq<Item>, d: seq<Item>, all: set<Item>, v: nat, x: Item)
    requires Covers(c, all, v) && Elements(d) == Elements(c) + {x}
    ensures Covers(d, all + {x}, v)
  {
  }

  lemma ElementsSplit(c: seq<Item>, k: nat)
    requires k <= |c|
    ensures Elements(c) == Elements(c[..k]) + Elements(c[k..])
  {
    forall x | x in Elements(c)
      ensures x in Elements(c[..k]) + Elements(c[k..])
    {
      var i :| 0 <= i < |c| && c[i] == x;
      if i < k { assert c[..k][i] == x; } else { assert c[k..][i - k] == x; }
    }
  }

  lemma CoversVacuumed(c: seq<Item>, all: set<Item>, v: nat, k: nat)
    requires Covers(c, all, v) && Sorted(c) && k < |c| && c[k].ts <= v
    ensures Covers(c[k..], all, v)
  {
    ElementsSplit(c, k);
    assert c[k..][0] in Elements(c[k..]);
    forall w | w in Elements(c[..k])
      ensures w.ts < c[k].ts
    {
      var i :| 0 <= i < k && c[..k][i] == w;
    }
    forall z | z in all && z !in Elements(c[k..])
      ensures exists w :: w in Elements(c[k..]) && z.ts < w.ts <= v
    {
      if z !in Elements(c) {
        var w :| w in Elements(c) && z.ts < w.ts <= v;
        assert w in Elements(c[k..]) || w.ts < c[k].ts;
      }
    }
  }

  /** No two versions contradict each other. */
  ghost predicate OneEach(all: set<Item>) {
    forall x, y :: x in all && y in all && x.ts == y.ts ==> x == y
  }

  lemma AgreesWithAll(c: seq<Item>, all: set<Item>, x: Item)
    requires OneEach(all) && Elements(c) <= all && x in all
    ensures Agrees(c, x)
  {
    assert forall i :: 0 <= i < |c| ==> c[i] in Elements(c);
  }

  /**
   * Insertions of agreeing versions and vacuumings with bounds up to `v`, in any order: all are
   * accepted, and lookups from `v` on are those in the set of all versions inserted, also for
   * versions that come after they were vacuumed.
   */
  method RunAll(ops: seq<Op>, v: nat) returns (c: seq<Item>, accepted: bool)
    requires OneEach(Added(ops))
    requires BoundedBy(ops, v)
    ensures accepted && Sorted(c) && Elements(c) <= Added(ops)
    ensures SameFrom(Elements(c), Added(ops), v)
  {
    var chain := new HashChain();
    ghost var all, sofar: set<Item> := Added(ops), {};
    var i, n := 0, |ops|;
    accepted := true;
    while i < n
      invariant 0 <= i <= n && accepted && fresh(chain) && chain.Valid()
      invariant sofar == Added(ops[..i]) && Covers(chain.items, sofar, v)
    {
      AddedNext(ops, i);
      var ok := Step(chain, ops[i], sofar, all, v);
      sofar := sofar + if ops[i].Add? then {ops[i].x} else {};
      accepted := accepted && ok;
      i := i + 1;
    }
    assert ops[..i] == ops;
    c := chain.items;
    CoversLookups(c, sofar, v);
  }

  method Step(chain: HashChain, op: Op, ghost sofar: set<Item>, ghost all: set<Item>, v: nat) returns (ok: bool)
    requires chain.Valid() && Covers(chain.items, sofar, v) && sofar <= all && OneEach(all)
    requires match op case Add(x) => x in all case Clean(validTs) => validTs <= v
    modifies chain
    ensures ok && chain.Valid()
    ensures Covers(chain.items, sofar + (if op.Add? then {op.x} else {}), v)
  {
    ghost var before := chain.items;
    match op {
      case Add(x) =>
        AgreesWithAll(before, all, x);
        ok := chain.Insert(x.ts, x.value);
        CoversAdded(before, chain.items, sofar, v, x);
      case Clean(validTs) =>
        chain.Vacuum(validTs);
        ok := true;
        ghost var k :| 0 <= k <= |before| && chain.items == before[k..] && (k > 0 ==> chain.items != [] && chain.items[0].ts <= validTs);
        if k > 0 { CoversVacuumed(before, sofar, v, k); } else { assert chain.items == before; }
        assert sofar + {} == sofar;
    }
  }

  lemma {:induction false} AddedNext(ops: seq<Op>, i: nat)
    requires i < |ops|
    ensures Added(ops[..i + 1]) == Added(ops[..i]) + if ops[i].Add? then {ops[i].x} else {}
    ensures Added(ops[..i + 1]) <= Added(ops)
    decreases |ops| - i
  {
    assert ops[..i + 1][..i] == ops[..i];
    if i + 1 < |ops| { AddedNext(ops, i + 1); } else { assert ops[..i + 1] == ops; }
  }
}
