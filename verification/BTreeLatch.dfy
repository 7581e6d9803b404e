/**
 * Latch crabbing (common/index_btree.h:63-132, untrusted/cache/index_btree.cpp:195-243 and
 * 302-392): one node's latch word against its holders, and the latches a descent holds, whatever
 * the other threads let it have.
 */
module BTreeLatch {
  import opened BTree
  import opened BTreeContent
  import opened BTreeScan
  import opened BTreeIndex

  datatype Kind = Free | Shared | Exclusive

  // ----- one latch

  class NodeLatch {
    var kind: Kind
    var share: nat
    ghost var sharers: set<nat>
    ghost var owners: set<nat>

    /** The word tells the holders: any number of readers, or one writer alone. */
    ghost predicate Valid()
      reads this
    {
      && share == |sharers| && |owners| <= 1
      && (kind == Free <==> sharers == {} && owners == {})
      && (kind == Shared <==> sharers != {})
      && (kind == Exclusive <==> owners != {})
    }

    constructor ()
      ensures Valid() && sharers == {} && owners == {}
    {
      kind, share := Free, 0;
      sharers, owners := {}, {};
    }

    /** latch_node */
    method Latch(me: nat, want: Kind) returns (ok: bool)
      requires Valid() && me !in sharers && me !in owners && want != Free
      modifies this
      ensures Valid()
      ensures ok <==> old(owners) == {} && (old(sharers) == {} || want == Shared)
      ensures sharers == old(sharers) + if ok && want == Shared then {me} else {}
      ensures owners == old(owners) + if ok && want == Exclusive then {me} else {}
    {
      if kind == Free || (kind == Shared && want == Shared) {
        if kind == Free {
          assert share == 0;
        }
        kind := want;
        if kind == Shared {
          share := share + 1;
          sharers := sharers + {me};
        } else {
          owners := {me};
        }
        ok := true;
      } else {
        ok := false;
      }
    }

    /** release_latch */
    method Release(me: nat)
      requires Valid() && (me in sharers || me in owners)
      modifies this
      ensures Valid()
      ensures sharers == old(sharers) - {me} && owners == old(owners) - {me}
    {
      assert kind != Free;
      assert me in owners ==> owners == {me} by { if me in owners { Alone(owners, me); } }
      if kind == Exclusive {
        kind := Free;
        owners := {};
      } else if kind == Shared {
        share := share - 1;
        sharers := sharers - {me};
        if share == 0 {
          kind := Free;
        }
      }
    }

    /** upgrade_latch: only the last reader becomes the writer. */
    method Upgrade(me: nat) returns (ok: bool)
      requires Valid() && me in sharers
      modifies this
      ensures Valid()
      ensures ok <==> old(sharers) == {me}
      ensures if ok then sharers == {} && owners == {me} else sharers == old(sharers) && owners == old(owners)
    {
      assert kind == Shared;
      assert share <= 1 ==> sharers == {me} by { Alone(sharers, me); }
      if share > 1 {
        ok := false;
      } else {
        ok := true;
        kind, share := Exclusive, 0;
        sharers, owners := {}, {me};
      }
    }
  }

  lemma Alone(s: set<nat>, x: nat)
    requires x in s
    ensures |s| <= 1 ==> s == {x}
    ensures |s - {x}| == |s| - 1
  {
    if s != {x} {
      assert |s - {x}| == |s| - 1;
      assert s - {x} != {};
    }
  }

  // ----- a descent

  /** The last node of `Touched`: the lowest ancestor that is not full, or the root. */
  ghost function Top(t: Tree, n: nat): nat
    requires Inv(t, NoGap) && n < |t.nodes|
    decreases t.fen[t.root].level - t.fen[n].level
  {
    if n == t.root || |t.nodes[n].keys| < ORDER - 1 then n
    else
      ParentUp(t, NoGap, n);
      Top(t, t.nodes[n].parent)
  }

  /** The ancestors a descent at `c` keeps for the splits to come. */
  ghost function Kept(t: Tree, c: nat): set<nat>
    requires Inv(t, NoGap) && c < |t.nodes|
  {
    if c == t.root || |t.nodes[c].keys| < ORDER - 1 then {}
    else
      ParentUp(t, NoGap, c);
      Touched(t, NoGap, t.nodes[c].parent)
  }

  ghost function LastEx(t: Tree, c: nat): int
    requires Inv(t, NoGap) && c < |t.nodes|
  {
    if c == t.root || |t.nodes[c].keys| < ORDER - 1 then NONE
    else
      ParentUp(t, NoGap, c);
      Top(t, t.nodes[c].parent)
  }

  lemma {:induction false} TouchedLevels(t: Tree, n: nat)
    requires Inv(t, NoGap) && n < |t.nodes|
    ensures forall x :: x in Touched(t, NoGap, n) ==> x < |t.nodes| && (x == n || t.fen[n].level < t.fen[x].level)
    ensures Top(t, n) < |t.nodes| && Top(t, n) in Touched(t, NoGap, n)
    decreases t.fen[t.root].level - t.fen[n].level
  {
    if n != t.root && |t.nodes[n].keys| >= ORDER - 1 {
      ParentUp(t, NoGap, n);
      TouchedLevels(t, t.nodes[n].parent);
    }
  }

  lemma TopAlone(t: Tree, n: nat)
    requires Inv(t, NoGap) && n < |t.nodes| && Top(t, n) == n
    ensures Touched(t, NoGap, n) == {n}
  {
    if n != t.root && |t.nodes[n].keys| >= ORDER - 1 {
      ParentUp(t, NoGap, n);
      TouchedLevels(t, t.nodes[n].parent);
    }
  }

  ghost function AllExclusive(s: set<nat>): map<nat, Kind> {
    map n | n in s :: Exclusive
  }

  /** One operation's latches; `grants` says which of its attempts the other threads let through. */
  class Operation {
    var held: map<nat, Kind>
    var tries: nat
    const grants: nat -> bool

    /** Every attempt from the `from`-th on was let through. */
    ghost predicate AllGranted(from: nat)
      reads this
    {
      forall i :: from <= i < tries ==> grants(i)
    }

    constructor (others: nat -> bool)
      ensures held == map[] && tries == 0 && grants == others
    {
      held, tries, grants := map[], 0, others;
    }

    method Latch(n: nat) returns (ok: bool)
      requires n !in held
      modifies this
      ensures held == if ok then old(held)[n := Shared] else old(held)
      ensures ok == grants(old(tries)) && tries == old(tries) + 1
    {
      ok := grants(tries);
      tries := tries + 1;
      if ok {
        held := held[n := Shared];
      }
    }

    /** The word's assertion that the latch is taken. */
    method Release(n: nat)
      requires n in held
      modifies this`held
      ensures held == old(held) - {n}
    {
      held := held - {n};
    }

    /** The word's assertion that the latch is shared. */
    method Upgrade(n: nat) returns (ok: bool)
      requires n in held && held[n] == Shared
      modifies this
      ensures held == if ok then old(held)[n := Exclusive] else old(held)
      ensures ok == grants(old(tries)) && tries == old(tries) + 1
    {
      ok := grants(tries);
      tries := tries + 1;
      if ok {
        held := held[n := Exclusive];
      }
    }

    /** cleanup: releases the ancestors of `c` up to `lastEx`. */
    method Cleanup(nodes: seq<Node>, root: nat, ghost t: Tree, c: nat, lastEx: int)
      requires t.nodes == nodes && t.root == root && Inv(t, NoGap) && c < |t.nodes|
      requires lastEx != NONE ==> lastEx == LastEx(t, c) && Kept(t, c) <= held.Keys
      modifies this`held
      ensures held == old(held) - if lastEx == NONE then {} else Kept(t, c)
    {
      if lastEx != NONE {
        ParentUp(t, NoGap, c);
        var node: nat := nodes[c].parent;
        ghost var gone := {node};
        TouchedLevels(t, node);
        Release(node);
        while node != lastEx
          invariant node < |t.nodes| && Top(t, node) == lastEx && node in gone
          invariant gone + Touched(t, NoGap, node) == Kept(t, c)
          invariant forall x :: x in gone ==> x < |t.nodes| && t.fen[x].level <= t.fen[node].level
          invariant held == old(held) - gone
          decreases t.fen[t.root].level - t.fen[node].level
        {
          ParentUp(t, NoGap, node);
          node := nodes[node].parent;
          TouchedLevels(t, node);
          Release(node);
          gone := gone + {node};
        }
        TopAlone(t, node);
      }
    }

    /** Holding `c`, and for an insertion the ancestors its splits may need. */
    ghost predicate At(t: Tree, c: nat, insert: bool, lastEx: int)
      reads this
      requires Inv(t, NoGap)
    {
      && c < |t.nodes|
      && held == AllExclusive(if insert then Kept(t, c) else {})[c := Shared]
      && lastEx == if insert then LastEx(t, c) else NONE
    }

    /** One step of the descent, from `c` to its child. */
    method Step(nodes: seq<Node>, root: nat, ghost t: Tree, c: nat, child: nat, insert: bool, lastEx: int) returns (ok: bool, lastEx': int)
      requires t.nodes == nodes && t.root == root && Inv(t, NoGap) && Filled(t) && At(t, c, insert, lastEx)
      requires child < |t.nodes| && child != t.root && t.nodes[child].parent == c
      modifies this
      ensures ok ==> At(t, child, insert, lastEx')
      ensures !ok ==> held == map[]
      ensures old(tries) < tries && (ok <==> AllGranted(old(tries)))
    {
      ParentUp(t, NoGap, child);
      KeptAbove(t, c);
      KeptChild(t, c, child);
      assert FillOK(t, child);
      lastEx' := lastEx;
      ok := Latch(child);
      if !ok {
        Release(c);
        Cleanup(nodes, root, t, c, lastEx);
        return ok, NONE;
      }
      if insert {
        if |nodes[child].keys| == ORDER - 1 {
          ok := Upgrade(c);
          if !ok {
            Release(c);
            Release(child);
            Cleanup(nodes, root, t, c, lastEx);
            return ok, NONE;
          }
          if lastEx == NONE {
            lastEx' := c;
          }
        } else {
          Cleanup(nodes, root, t, c, lastEx);
          lastEx' := NONE;
          Release(c);
        }
      } else {
        Release(c);
      }
    }

    /** The end of an insertion's descent: the leaf's latch becomes exclusive, or all are given up. */
    method Claim(nodes: seq<Node>, root: nat, ghost t: Tree, leaf: nat, lastEx: int) returns (ok: bool)
      requires t.nodes == nodes && t.root == root && Inv(t, NoGap) && At(t, leaf, true, lastEx)
      modifies this
      ensures held == if ok then AllExclusive(Touched(t, NoGap, leaf)) else map[]
      ensures ok == grants(old(tries)) && tries == old(tries) + 1
    {
      KeptAbove(t, leaf);
      ok := Upgrade(leaf);
      if !ok {
        Release(leaf);
        Cleanup(nodes, root, t, leaf, lastEx);
      }
    }

    /**
     * find_leaf: a granted insertion holds exclusively the leaf and exactly its ancestors up to
     * the lowest that is not full, a granted read shares the leaf alone, and a refused descent
     * holds nothing. A descent is refused exactly when one of its attempts is.
     */
    method FindLeaf(nodes: seq<Node>, root: nat, ghost t: Tree, key: nat, insert: bool) returns (ok: bool, leaf: nat, lastEx: int)
      requires t.nodes == nodes && t.root == root && Inv(t, NoGap) && Filled(t) && key < KEY_END && held == map[]
      modifies this
      ensures ok ==> leaf == LeafFor(t, t.root, key) && lastEx == if insert then LastEx(t, leaf) else NONE
      ensures held == if !ok then map[] else if insert then AllExclusive(Touched(t, NoGap, leaf)) else map[leaf := Shared]
      ensures old(tries) < tries && (ok <==> AllGranted(old(tries)))
    {
      leaf, lastEx := root, NONE;
      ok := Latch(leaf);
      if !ok {
        return;
      }
      while !nodes[leaf].isLeaf
        invariant ok && At(t, leaf, insert, lastEx) && old(tries) < tries && AllGranted(old(tries))
        invariant Covers(t.fen[leaf], key) && LeafFor(t, leaf, key) == LeafFor(t, t.root, key)
        decreases t.fen[leaf].level
      {
        Followed(t, leaf, key);
        FollowedKid(t, leaf, key);
        var i := ChildIndex(nodes[leaf].keys, key);
        var child := nodes[leaf].kids[i];
        ok, lastEx := Step(nodes, root, t, leaf, child, insert, lastEx);
        if !ok {
          return;
        }
        leaf := child;
      }
      if insert {
        ok := Claim(nodes, root, t, leaf, lastEx);
      }
    }
  }

  lemma FollowedKid(t: Tree, n: nat, key: nat)
    requires Inv(t, NoGap) && n < |t.nodes| && !t.nodes[n].isLeaf && Covers(t.fen[n], key)
    ensures |t.nodes[n].kids| == |t.nodes[n].keys| + 1
    ensures var c := t.nodes[n].kids[ChildIndex(t.nodes[n].keys, key)]; c < |t.nodes| && c != t.root && t.nodes[c].parent == n
  {
    assert NodeOK(t, NoGap, n);
    assert KidOK(t, NoGap, n, ChildIndex(t.nodes[n].keys, key));
  }

  lemma KeptAbove(t: Tree, c: nat)
    requires Inv(t, NoGap) && c < |t.nodes|
    ensures forall x :: x in Kept(t, c) ==> x < |t.nodes| && t.fen[c].level < t.fen[x].level
    ensures LastEx(t, c) == NONE <==> Kept(t, c) == {}
    ensures Touched(t, NoGap, c) == Kept(t, c) + {c}
  {
    if c != t.root && |t.nodes[c].keys| >= ORDER - 1 {
      ParentUp(t, NoGap, c);
      TouchedLevels(t, t.nodes[c].parent);
    }
  }

  /** Below a full child, the parent joins what is kept; below another, nothing is kept. */
  lemma KeptChild(t: Tree, c: nat, child: nat)
    requires Inv(t, NoGap) && c < |t.nodes| && child < |t.nodes| && child != t.root && t.nodes[child].parent == c
    ensures |t.nodes[child].keys| >= ORDER - 1 ==>
        Kept(t, child) == Kept(t, c) + {c} && LastEx(t, child) == if LastEx(t, c) == NONE then c else LastEx(t, c)
    ensures |t.nodes[child].keys| < ORDER - 1 ==> Kept(t, child) == {} && LastEx(t, child) == NONE
  {
    KeptAbove(t, c);
  }

  // ----- the whole insertion

  /** The list of latched nodes, from the leaf up; at most 22, so 100 places are enough. */
  method Collect(nodes: seq<Node>, root: nat, ghost t: Tree, leaf: nat, lastEx: int) returns (list: seq<nat>)
    requires t.nodes == nodes && t.root == root && Inv(t, NoGap) && Filled(t) && leaf < |t.nodes| && t.nodes[leaf].isLeaf
        && lastEx == LastEx(t, leaf)
    ensures (set n | n in list) == Touched(t, NoGap, leaf) && |list| <= 22
    ensures forall i, j :: 0 <= i < j < |list| ==> list[i] != list[j]
  {
    DepthBound(t);
    KeptAbove(t, leaf);
    assert NodeOK(t, NoGap, leaf);
    list := [];
    if lastEx == NONE {
      return [leaf];
    }
    var node: nat := leaf;
    ParentUp(t, NoGap, leaf);
    while node != lastEx
      invariant node < |t.nodes| && Top(t, node) == lastEx && |list| == t.fen[node].level
      invariant (set n | n in list) + Touched(t, NoGap, node) == Touched(t, NoGap, leaf)
      invariant forall i :: 0 <= i < |list| ==> list[i] < |t.nodes| && t.fen[list[i]].level == i
      decreases t.fen[t.root].level - t.fen[node].level
    {
      ParentUp(t, NoGap, node);
      ghost var was := list;
      list := list + [node];
      assert (set n | n in list) == (set n | n in was) + {node};
      node := nodes[node].parent;
    }
    TopAlone(t, node);
    ghost var was := list;
    list := list + [node];
    assert (set n | n in list) == (set n | n in was) + {node};
  }

  /**
   * index_insert under latches: a refused descent changes nothing; a granted one updates the
   * multimap and changes only nodes it holds exclusively. Either way no latch is left. It is
   * refused exactly when one of its attempts is, so an insertion nobody hinders succeeds.
   */
  method LatchedInsert(ix: Index, op: Operation, key: nat, item: Item) returns (ok: bool, ghost latched: map<nat, Kind>)
    requires ix.Valid() && key < KEY_END && op.held == map[]
    modifies ix, op
    ensures ix.Valid() && op.held == map[] && old(op.tries) < op.tries
    ensures ok <==> op.AllGranted(old(op.tries))
    ensures !ok ==> ix.T() == old(ix.T()) && ix.content == old(ix.content)
    ensures ok ==> ix.content == old(ix.content)[key := [item] + if key in old(ix.content) then old(ix.content)[key] else []]
    ensures ok ==> SameBut(old(ix.nodes), ix.nodes, latched.Keys) && forall n :: n in latched ==> latched[n] == Exclusive
  {
    latched := map[];
    var leaf, lastEx;
    ghost var t := ix.T();
    ok, leaf, lastEx := op.FindLeaf(ix.nodes, ix.root, t, key, true);
    if ok {
      latched := op.held;
      var list := Collect(ix.nodes, ix.root, t, leaf, lastEx);
      ix.Insert(key, item);
      ReleaseAll(op, list);
    }
  }

  /** The loop that releases the latched nodes. */
  method ReleaseAll(op: Operation, list: seq<nat>)
    requires op.held.Keys == (set n | n in list) && forall i, j :: 0 <= i < j < |list| ==> list[i] != list[j]
    modifies op`held
    ensures op.held == map[]
  {
    var i := 0;
    while i < |list|
      invariant 0 <= i <= |list| && op.held.Keys == set n | n in list[i..]
    {
      assert list[i] in list[i..];
      op.Release(list[i]);
      i := i + 1;
    }
  }
}
