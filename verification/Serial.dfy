/**
 * The reference point of the three optimistic protocols: committed transactions executed
 * one after the other on the initial table.
 *
 * A protocol keeps the list of its committed transactions in the order it claims to be
 * equivalent to (sorted by timestamp, ties in commit order). A commit inserts its record in
 * that list, possibly in the middle of transactions that committed earlier in real time.
 */
module Serial {
  import opened Wrappers

  type Value = int

  /** One committed transaction: what it read and what it wrote, per row. */
  datatype Committed = Committed(id: nat, ts: nat, readSet: map<nat, Value>, writeSet: map<nat, Value>)

  // ----- the serial machine

  predicate ReadsMatch(db: seq<Value>, c: Committed) {
    && (forall r :: r in c.readSet ==> r < |db| && c.readSet[r] == db[r])
    && (forall r :: r in c.writeSet ==> r < |db|)
  }

  function Overwrite(db: seq<Value>, w: map<nat, Value>): seq<Value> {
    seq(|db|, i requires 0 <= i < |db| => if i in w then w[i] else db[i])
  }

  /** Runs `h` serially from `db`; None when some transaction would have read another value. */
  function Replay(db: seq<Value>, h: seq<Committed>): Option<seq<Value>> {
    if h == [] then Some(db)
    else
      var last := h[|h| - 1];
      match Replay(db, h[..|h| - 1])
      case None => None
      case Some(d) => if ReadsMatch(d, last) then Some(Overwrite(d, last.writeSet)) else None
  }

  // ----- one row at a time

  /** The value of row `r` after `h`, starting from `v0`. */
  function ValueOf(h: seq<Committed>, v0: Value, r: nat): Value {
    if h == [] then v0
    else if r in h[|h| - 1].writeSet then h[|h| - 1].writeSet[r]
    else ValueOf(h[..|h| - 1], v0, r)
  }

  predicate Sorted(h: seq<Committed>) {
    forall i, j :: 0 <= i < j < |h| ==> h[i].ts <= h[j].ts
  }

  predicate Accesses(c: Committed, r: nat) {
    r in c.readSet || r in c.writeSet
  }

  /** Every transaction read what the transactions before it left behind. */
  ghost predicate Consistent(db: seq<Value>, h: seq<Committed>) {
    forall k :: 0 <= k < |h| ==> ConsistentAt(db, h, k)
  }

  ghost predicate ConsistentAt(db: seq<Value>, h: seq<Committed>, k: nat)
    requires k < |h|
  {
    && (forall r :: r in h[k].readSet ==> r < |db| && h[k].readSet[r] == ValueOf(h[..k], db[r], r))
    && (forall r :: r in h[k].writeSet ==> r < |db|)
  }

  /** Number of leading transactions with a timestamp of at most `t`. */
  function Upto(h: seq<Committed>, t: nat): (p: nat)
    ensures p <= |h|
    ensures Sorted(h) ==> forall i :: 0 <= i < |h| ==> (i < p <==> h[i].ts <= t)
  {
    if h == [] then 0
    else if h[|h| - 1].ts <= t then |h|
    else Upto(h[..|h| - 1], t)
  }

  /** The value of row `r` at logical time `t`. */
  function At(h: seq<Committed>, v0: Value, r: nat, t: nat): Value {
    ValueOf(h[..Upto(h, t)], v0, r)
  }

  /** `c` takes its place after every transaction of the same or an earlier timestamp. */
  function Insert(h: seq<Committed>, c: Committed): seq<Committed> {
    h[..Upto(h, c.ts)] + [c] + h[Upto(h, c.ts)..]
  }

  // ----- lemmas

  lemma {:induction false} ValueOfConcat(a: seq<Committed>, b: seq<Committed>, v0: Value, r: nat)
    ensures ValueOf(a + b, v0, r) == ValueOf(b, ValueOf(a, v0, r), r)
  {
    if b == [] {
      assert a + b == a;
    } else {
      assert (a + b)[..|a + b| - 1] == a + b[..|b| - 1];
      ValueOfConcat(a, b[..|b| - 1], v0, r);
    }
  }

  lemma {:induction false} ValueOfUnwritten(b: seq<Committed>, v0: Value, r: nat)
    requires forall i :: 0 <= i < |b| ==> r !in b[i].writeSet
    ensures ValueOf(b, v0, r) == v0
  {
    if b != [] {
      ValueOfUnwritten(b[..|b| - 1], v0, r);
    }
  }

  lemma UptoUnique(h: seq<Committed>, t: nat, p: nat)
    requires Sorted(h) && p <= |h|
    requires forall i :: 0 <= i < |h| ==> (i < p <==> h[i].ts <= t)
    ensures Upto(h, t) == p
  {
    var q := Upto(h, t);
    assert q < |h| ==> h[q].ts > t;
    assert p < |h| ==> h[p].ts > t;
  }

  lemma UptoMonotone(h: seq<Committed>, t: nat, u: nat)
    requires Sorted(h) && t <= u
    ensures Upto(h, t) <= Upto(h, u)
  {
    assert Upto(h, u) < |h| ==> h[Upto(h, u)].ts > u;
  }

  lemma InsertSorted(h: seq<Committed>, c: Committed)
    requires Sorted(h)
    ensures Sorted(Insert(h, c))
  {
  }

  lemma InsertUpto(h: seq<Committed>, c: Committed, t: nat)
    requires Sorted(h)
    ensures Upto(Insert(h, c), t) == if t < c.ts then Upto(h, t) else Upto(h, t) + 1
  {
    InsertSorted(h, c);
    var g := Insert(h, c);
    var p, q := Upto(h, c.ts), Upto(h, t);
    var n := if t < c.ts then q else q + 1;
    if t < c.ts {
      UptoMonotone(h, t, c.ts);
    } else {
      UptoMonotone(h, c.ts, t);
    }
    forall i | 0 <= i < |g|
      ensures i < n <==> g[i].ts <= t
    {
      assert g[i] == if i < p then h[i] else if i == p then c else h[i - 1];
    }
    UptoUnique(g, t, n);
  }

  /** The value of a row across `a`, then `c`, then `b`. */
  lemma ValueOfAround(a: seq<Committed>, c: Committed, b: seq<Committed>, v0: Value, r: nat)
    ensures r !in c.writeSet ==> ValueOf(a + [c] + b, v0, r) == ValueOf(a + b, v0, r)
    ensures r in c.writeSet && (forall i :: 0 <= i < |b| ==> r !in b[i].writeSet) ==>
      ValueOf(a + [c] + b, v0, r) == c.writeSet[r]
  {
    ValueOfConcat(a + [c], b, v0, r);
    ValueOfConcat(a, b, v0, r);
    assert (a + [c])[..|a|] == a;
    if r in c.writeSet && (forall i :: 0 <= i < |b| ==> r !in b[i].writeSet) {
      ValueOfUnwritten(b, c.writeSet[r], r);
    }
  }

  lemma InsertIndex(h: seq<Committed>, c: Committed, i: nat)
    requires i <= |h|
    ensures |Insert(h, c)| == |h| + 1
    ensures Insert(h, c)[i] == if i < Upto(h, c.ts) then h[i] else if i == Upto(h, c.ts) then c else h[i - 1]
  {
  }

  /** A bound on the timestamps of the transactions that touch a row. */
  lemma InsertBound(h: seq<Committed>, c: Committed, r: nat, cap: nat)
    requires forall i :: 0 <= i < |h| && Accesses(h[i], r) ==> h[i].ts <= cap
    requires Accesses(c, r) ==> c.ts <= cap
    ensures forall i :: 0 <= i < |Insert(h, c)| && Accesses(Insert(h, c)[i], r) ==> Insert(h, c)[i].ts <= cap
  {
    forall i | 0 <= i < |Insert(h, c)| && Accesses(Insert(h, c)[i], r)
      ensures Insert(h, c)[i].ts <= cap
    {
      InsertIndex(h, c, i);
    }
  }

  predicate DistinctIds(h: seq<Committed>) {
    forall i, j :: 0 <= i < j < |h| ==> h[i].id != h[j].id
  }

  /** The inserted list has the same members plus the new one. */
  lemma InsertMembers(h: seq<Committed>, c: Committed)
    requires DistinctIds(h) && forall i :: 0 <= i < |h| ==> h[i].id != c.id
    ensures DistinctIds(Insert(h, c))
    ensures forall x :: x in Insert(h, c) <==> x in h || x == c
  {
    var g, p := Insert(h, c), Upto(h, c.ts);
    forall i, j | 0 <= i < j < |g|
      ensures g[i].id != g[j].id
    {
      InsertIndex(h, c, i);
      InsertIndex(h, c, j);
    }
    assert h == h[..p] + h[p..];
  }

  /** No transaction of `h` with a later timestamp than `c` touches a row that `c` writes. */
  predicate NoLaterAccess(h: seq<Committed>, c: Committed) {
    forall i, r :: 0 <= i < |h| && r in c.writeSet && Accesses(h[i], r) ==> h[i].ts <= c.ts
  }

  /** Effect of an insertion on the value of a row at every logical time. */
  lemma InsertAt(h: seq<Committed>, c: Committed, v0: Value, r: nat, t: nat)
    requires Sorted(h)
    requires r in c.writeSet ==> NoLaterAccess(h, c)
    ensures At(Insert(h, c), v0, r, t) ==
            if r in c.writeSet && c.ts <= t then c.writeSet[r] else At(h, v0, r, t)
  {
    if t < c.ts {
      InsertAtBefore(h, c, v0, r, t);
    } else {
      InsertAtAfter(h, c, v0, r, t);
    }
  }

  lemma InsertAtBefore(h: seq<Committed>, c: Committed, v0: Value, r: nat, t: nat)
    requires Sorted(h) && t < c.ts
    ensures At(Insert(h, c), v0, r, t) == At(h, v0, r, t)
  {
    InsertUpto(h, c, t);
    UptoMonotone(h, t, c.ts);
    assert Insert(h, c)[..Upto(h, t)] == h[..Upto(h, t)];
  }

  lemma InsertAtAfter(h: seq<Committed>, c: Committed, v0: Value, r: nat, t: nat)
    requires Sorted(h) && c.ts <= t
    requires r in c.writeSet ==> NoLaterAccess(h, c)
    ensures At(Insert(h, c), v0, r, t) == if r in c.writeSet then c.writeSet[r] else At(h, v0, r, t)
  {
    var p, q := Upto(h, c.ts), Upto(h, t);
    InsertCut(h, c, t);
    AroundGap(h[..p], c, h[p..q], v0, r);
    if r in c.writeSet {
      UnwrittenBetween(h, c, r, p, q);
    }
  }

  /** The transactions up to a time after the insertion. */
  lemma InsertCut(h: seq<Committed>, c: Committed, t: nat)
    requires Sorted(h) && c.ts <= t
    ensures Upto(h, c.ts) <= Upto(h, t)
    ensures var p, q := Upto(h, c.ts), Upto(h, t);
            Insert(h, c)[..Upto(Insert(h, c), t)] == h[..p] + [c] + h[p..q] && h[..q] == h[..p] + h[p..q]
  {
    InsertUpto(h, c, t);
    UptoMonotone(h, c.ts, t);
    InsertPrefix(h, c, Upto(h, c.ts), Upto(h, t));
  }

  predicate Unwritten(b: seq<Committed>, r: nat) {
    forall i :: 0 <= i < |b| ==> r !in b[i].writeSet
  }

  lemma AroundGap(a: seq<Committed>, c: Committed, b: seq<Committed>, v0: Value, r: nat)
    ensures r !in c.writeSet ==> ValueOf(a + [c] + b, v0, r) == ValueOf(a + b, v0, r)
    ensures r in c.writeSet && Unwritten(b, r) ==> ValueOf(a + [c] + b, v0, r) == c.writeSet[r]
  {
    ValueOfAround(a, c, b, v0, r);
  }

  lemma UnwrittenBetween(h: seq<Committed>, c: Committed, r: nat, p: nat, q: nat)
    requires Sorted(h) && NoLaterAccess(h, c) && r in c.writeSet && p == Upto(h, c.ts) <= q <= |h|
    ensures Unwritten(h[p..q], r)
  {
    UnwrittenAfter(h, c, r);
    forall i | 0 <= i < |h[p..q]|
      ensures r !in h[p..q][i].writeSet
    {
      assert h[p..q][i] == h[p + i];
    }
  }

  lemma InsertPrefix(h: seq<Committed>, c: Committed, p: nat, q: nat)
    requires p <= q <= |h|
    ensures (h[..p] + [c] + h[p..])[..q + 1] == h[..p] + [c] + h[p..q]
    ensures h[..q] == h[..p] + h[p..q]
  {
    assert h[p..][..q - p] == h[p..q];
  }

  lemma UnwrittenAfter(h: seq<Committed>, c: Committed, r: nat)
    requires Sorted(h) && NoLaterAccess(h, c) && r in c.writeSet
    ensures forall i :: Upto(h, c.ts) <= i < |h| ==> r !in h[i].writeSet && r !in h[i].readSet
  {
    assert forall i :: Upto(h, c.ts) <= i < |h| ==> !Accesses(h[i], r);
  }

  /**
   * The step every commit takes: a transaction that read the values of its own logical time
   * and writes only rows nobody touched later can be placed among the committed ones.
   */
  lemma InsertConsistent(db: seq<Value>, h: seq<Committed>, c: Committed)
    requires Sorted(h) && Consistent(db, h) && NoLaterAccess(h, c)
    requires forall r :: r in c.readSet ==> r < |db| && c.readSet[r] == At(h, db[r], r, c.ts)
    requires forall r :: r in c.writeSet ==> r < |db|
    ensures Consistent(db, Insert(h, c))
  {
    var g := Insert(h, c);
    var p := Upto(h, c.ts);
    forall k | 0 <= k < |g|
      ensures ConsistentAt(db, g, k)
    {
      if k < p {
        assert g[k] == h[k] && g[..k] == h[..k];
        assert ConsistentAt(db, h, k);
      } else if k == p {
        assert g[k] == c && g[..p] == h[..p];
      } else {
        assert g[k] == h[k - 1];
        assert ConsistentAt(db, h, k - 1);
        InsertReads(db, h, c, k);
      }
    }
  }

  /** A transaction placed behind the inserted one keeps its reads. */
  lemma InsertReads(db: seq<Value>, h: seq<Committed>, c: Committed, k: nat)
    requires Sorted(h) && NoLaterAccess(h, c)
    requires Upto(h, c.ts) < k <= |h| && ConsistentAt(db, h, k - 1)
    ensures forall r :: r in h[k - 1].readSet ==>
      r < |db| && h[k - 1].readSet[r] == ValueOf(Insert(h, c)[..k], db[r], r)
  {
    var p := Upto(h, c.ts);
    InsertPrefix(h, c, p, k - 1);
    forall r | r in h[k - 1].readSet
      ensures h[k - 1].readSet[r] == ValueOf(Insert(h, c)[..k], db[r], r)
    {
      if r in c.writeSet {
        UnwrittenAfter(h, c, r);
        assert false;
      }
      ValueOfAround(h[..p], c, h[p..k - 1], db[r], r);
    }
  }

  /** Consistency row by row is exactly success of the serial machine, with the same final table. */
  lemma {:induction false} ConsistentIffReplay(db: seq<Value>, h: seq<Committed>)
    ensures Consistent(db, h) <==> Replay(db, h).Some?
    ensures Replay(db, h).Some? ==>
      && |Replay(db, h).value| == |db|
      && forall r :: 0 <= r < |db| ==> Replay(db, h).value[r] == ValueOf(h, db[r], r)
  {
    if h != [] {
      var n := |h| - 1;
      var g := h[..n];
      ConsistentIffReplay(db, g);
      assert forall k :: 0 <= k < n ==> h[k] == g[k] && h[..k] == g[..k];
      assert (forall k :: 0 <= k < n ==> ConsistentAt(db, h, k)) <==> Consistent(db, g) by {
        assert forall k :: 0 <= k < n ==> (ConsistentAt(db, h, k) <==> ConsistentAt(db, g, k));
      }
      assert Consistent(db, h) <==> Consistent(db, g) && ConsistentAt(db, h, n);
      if Replay(db, g).Some? {
        var d := Replay(db, g).value;
        assert ReadsMatch(d, h[n]) <==> ConsistentAt(db, h, n);
      }
    }
  }

  /** When nobody with a timestamp above `t` writes `r`, its value at `t` is its final value. */
  lemma AtEnd(h: seq<Committed>, v0: Value, r: nat, t: nat, u: nat)
    requires Sorted(h) && t <= u
    requires forall i :: 0 <= i < |h| && r in h[i].writeSet ==> h[i].ts <= t
    ensures At(h, v0, r, t) == At(h, v0, r, u) == ValueOf(h, v0, r)
  {
    AtFinal(h, v0, r, t);
    AtFinal(h, v0, r, u);
  }

  lemma AtFinal(h: seq<Committed>, v0: Value, r: nat, t: nat)
    requires Sorted(h)
    requires forall i :: 0 <= i < |h| && r in h[i].writeSet ==> h[i].ts <= t
    ensures At(h, v0, r, t) == ValueOf(h, v0, r)
  {
    var p := Upto(h, t);
    assert h == h[..p] + h[p..];
    ValueOfConcat(h[..p], h[p..], v0, r);
    ValueOfUnwritten(h[p..], ValueOf(h[..p], v0, r), r);
  }
}
