/**
 * The B+ tree index (untrusted/cache/index_btree.cpp) as an arena of nodes addressed by node id:
 * the local conditions that make it a search tree, and lookup. The fences of a node, the key
 * range it is responsible for, are not stored by the program.
 */
module BTree {
  import opened Wrappers

  type Item = int

  const NONE: int := -1
  const ORDER: nat := 16
  const KEY_END: nat := 0x1_0000_0000_0000_0000

  /** bt_node: a leaf has an item chain per key, an inner node one child more than keys. */
  datatype Node = Node(isLeaf: bool, keys: seq<nat>, items: seq<seq<Item>>, kids: seq<nat>, parent: int, next: int)

  /** Level above the leaves, and the keys `lo <= key < hi` that belong below the node. */
  datatype Fence = Fence(level: nat, lo: nat, hi: nat)

  datatype Tree = Tree(nodes: seq<Node>, root: nat, fen: seq<Fence>)

  /** A split not yet recorded in the parent: `right` took the keys from `key` on from `left`. */
  datatype Gap = NoGap | Gap(left: nat, key: nat, right: nat)

  predicate Ascending(s: seq<nat>) {
    forall i, j :: 0 <= i < j < |s| ==> s[i] < s[j]
  }

  // ----- the invariant

  predicate Sized(t: Tree, g: Gap) {
    |t.nodes| == |t.fen| && t.root < |t.nodes| && (g.Gap? ==> g.left < |t.nodes| && g.right < |t.nodes|)
  }

  /** The upper fence of a child as its parent knows it. */
  function SeenHi(t: Tree, g: Gap, c: nat): nat
    requires Sized(t, g) && c < |t.nodes|
  {
    if g.Gap? && g.left == c then t.fen[g.right].hi else t.fen[c].hi
  }

  /** The fences of the `i`-th child of a node, from its keys. */
  function LoAt(n: Node, f: Fence, i: nat): nat
    requires i <= |n.keys|
  {
    if i == 0 then f.lo else n.keys[i - 1]
  }

  function HiAt(n: Node, f: Fence, i: nat): nat
    requires i <= |n.keys|
  {
    if i == |n.keys| then f.hi else n.keys[i]
  }

  predicate LeafOK(n: Node, f: Fence) {
    n.isLeaf ==>
      && |n.items| == |n.keys| && n.kids == [] && f.level == 0 && Ascending(n.keys)
      && (forall i :: 0 <= i < |n.keys| ==> f.lo <= n.keys[i] < f.hi)
  }

  predicate InnerOK(n: Node, f: Fence) {
    !n.isLeaf ==>
      && n.items == [] && |n.kids| == |n.keys| + 1 && f.level > 0 && Ascending(n.keys)
      && (forall i :: 0 <= i < |n.keys| ==> f.lo < n.keys[i] < f.hi)
  }

  /** The `i`-th child of `n` points back and covers exactly the range between its separators. */
  predicate KidOK(t: Tree, g: Gap, n: nat, i: nat)
    requires Sized(t, g) && n < |t.nodes| && i < |t.nodes[n].kids| && i <= |t.nodes[n].keys|
  {
    var c := t.nodes[n].kids[i];
    && c < |t.nodes| && t.nodes[c].parent == n && t.fen[c].level + 1 == t.fen[n].level
    && t.fen[c].lo == LoAt(t.nodes[n], t.fen[n], i) && SeenHi(t, g, c) == HiAt(t.nodes[n], t.fen[n], i)
  }

  predicate KidsOK(t: Tree, g: Gap, n: nat)
    requires Sized(t, g) && n < |t.nodes| && InnerOK(t.nodes[n], t.fen[n])
  {
    !t.nodes[n].isLeaf ==> forall i :: 0 <= i < |t.nodes[n].kids| ==> KidOK(t, g, n, i)
  }

  /** Every node but the root hangs below its parent, no higher than the root. */
  predicate ParentOK(t: Tree, g: Gap, c: nat)
    requires Sized(t, g) && c < |t.nodes|
  {
    && t.fen[c].level <= t.fen[t.root].level
    && (c != t.root && !(g.Gap? && c == g.right) ==>
          && 0 <= t.nodes[c].parent < |t.nodes| && !t.nodes[t.nodes[c].parent].isLeaf
          && c in t.nodes[t.nodes[c].parent].kids)
  }

  /** Neighbours on a level are chained in key order. */
  predicate NextOK(t: Tree, g: Gap, n: nat)
    requires Sized(t, g) && n < |t.nodes|
  {
    var m := t.nodes[n].next;
    if m == NONE then t.fen[n].hi == KEY_END
    else 0 <= m < |t.nodes| && t.fen[m].level == t.fen[n].level && t.fen[m].lo == t.fen[n].hi
  }

  predicate NodeOK(t: Tree, g: Gap, n: nat)
    requires Sized(t, g) && n < |t.nodes|
  {
    && LeafOK(t.nodes[n], t.fen[n]) && InnerOK(t.nodes[n], t.fen[n])
    && KidsOK(t, g, n) && ParentOK(t, g, n) && NextOK(t, g, n)
  }

  predicate GapOK(t: Tree, g: Gap)
    requires Sized(t, g)
  {
    g.Gap? ==>
      && g.left != g.right && g.right != t.root && t.nodes[g.right].parent == t.nodes[g.left].parent
      && t.fen[g.left].level == t.fen[g.right].level && t.nodes[g.left].next == g.right
      && t.fen[g.left].lo < g.key < t.fen[g.right].hi && t.fen[g.left].hi == g.key == t.fen[g.right].lo
  }

  predicate RootOK(t: Tree, g: Gap)
    requires Sized(t, g)
  {
    t.nodes[t.root].parent == NONE && t.fen[t.root].lo == 0 && SeenHi(t, g, t.root) == KEY_END
  }

  predicate Inv(t: Tree, g: Gap) {
    && Sized(t, g) && GapOK(t, g) && RootOK(t, g)
    && (forall n :: 0 <= n < |t.nodes| ==> NodeOK(t, g, n))
  }

  // ----- occupancy

  /** How many keys a node may have: what the splits guarantee. */
  predicate FillOK(t: Tree, n: nat)
    requires n < |t.nodes|
  {
    && |t.nodes[n].keys| <= ORDER - 1
    && (n != t.root && t.nodes[n].isLeaf ==> |t.nodes[n].keys| >= 8)
    && (n != t.root && !t.nodes[n].isLeaf ==> |t.nodes[n].keys| >= 7)
    && (n == t.root && !t.nodes[n].isLeaf ==> |t.nodes[n].keys| >= 1)
  }

  predicate Filled(t: Tree) {
    forall n :: 0 <= n < |t.nodes| ==> FillOK(t, n)
  }

  // ----- the multimap it stands for

  /** `key` is in some leaf. */
  predicate Located(nodes: seq<Node>, key: nat) {
    exists n :: 0 <= n < |nodes| && nodes[n].isLeaf && key in nodes[n].keys
  }

  /** The leaves hold the multimap `m`, each key's chain at its place. */
  ghost predicate Holds(nodes: seq<Node>, m: map<nat, seq<Item>>) {
    && (forall n, i :: 0 <= n < |nodes| && nodes[n].isLeaf && 0 <= i < |nodes[n].keys| && i < |nodes[n].items| ==>
          nodes[n].keys[i] in m && m[nodes[n].keys[i]] == nodes[n].items[i])
    && (forall k :: k in m ==> Located(nodes, k))
  }

  // ----- descending

  /** The child to follow: past every key not above `key`. */
  function ChildIndex(keys: seq<nat>, key: nat): (i: nat)
    ensures i <= |keys|
    ensures i < |keys| ==> key < keys[i]
    ensures forall j :: 0 <= j < i ==> keys[j] <= key
  {
    if keys == [] || key < keys[0] then 0
    else
      var i := ChildIndex(keys[1..], key);
      assert forall j :: 1 <= j < 1 + i ==> keys[j] == keys[1..][j - 1];
      1 + i
  }

  predicate Covers(f: Fence, key: nat) {
    f.lo <= key < f.hi
  }

  /** The child followed covers the key. */
  lemma Followed(t: Tree, n: nat, key: nat)
    requires Inv(t, NoGap) && n < |t.nodes| && !t.nodes[n].isLeaf && Covers(t.fen[n], key)
    ensures |t.nodes[n].kids| == |t.nodes[n].keys| + 1
    ensures var c := t.nodes[n].kids[ChildIndex(t.nodes[n].keys, key)];
            c < |t.nodes| && Covers(t.fen[c], key) && t.fen[c].level < t.fen[n].level
  {
    assert NodeOK(t, NoGap, n);
    assert KidOK(t, NoGap, n, ChildIndex(t.nodes[n].keys, key));
  }

  /** The leaf reached from `n`. */
  function LeafFor(t: Tree, n: nat, key: nat): (l: nat)
    requires Inv(t, NoGap) && n < |t.nodes| && Covers(t.fen[n], key)
    ensures l < |t.nodes| && t.nodes[l].isLeaf && Covers(t.fen[l], key)
    decreases t.fen[n].level
  {
    if t.nodes[n].isLeaf then n
    else
      Followed(t, n, key);
      LeafFor(t, t.nodes[n].kids[ChildIndex(t.nodes[n].keys, key)], key)
  }

  /** Two nodes of a level that cover the same key are one node. */
  lemma {:induction false} CoverUnique(t: Tree, a: nat, b: nat, key: nat)
    requires Inv(t, NoGap) && a < |t.nodes| && b < |t.nodes| && t.fen[a].level == t.fen[b].level
    requires Covers(t.fen[a], key) && Covers(t.fen[b], key)
    ensures a == b
    decreases t.fen[t.root].level - t.fen[a].level
  {
    assert NodeOK(t, NoGap, a) && NodeOK(t, NoGap, b);
    if a != t.root {
      InParent(t, a);
    }
    if b != t.root {
      InParent(t, b);
    }
    if a != t.root && b != t.root {
      var p, q := t.nodes[a].parent, t.nodes[b].parent;
      CoverUnique(t, p, q, key);
      var i := IndexIn(t, a);
      var j := IndexIn(t, b);
      assert NodeOK(t, NoGap, p);
      assert KidOK(t, NoGap, p, i) && KidOK(t, NoGap, p, j);
    }
  }

  lemma IndexIn(t: Tree, c: nat) returns (i: nat)
    requires Inv(t, NoGap) && c < |t.nodes| && c != t.root
    ensures var p := t.nodes[c].parent; 0 <= p < |t.nodes| && i < |t.nodes[p].kids| && t.nodes[p].kids[i] == c
  {
    assert NodeOK(t, NoGap, c);
    var p := t.nodes[c].parent;
    i :| 0 <= i < |t.nodes[p].kids| && t.nodes[p].kids[i] == c;
  }

  /** A parent is one level up and covers what its child covers. */
  lemma InParent(t: Tree, c: nat)
    requires Inv(t, NoGap) && c < |t.nodes| && c != t.root
    ensures var p := t.nodes[c].parent;
            && 0 <= p < |t.nodes| && !t.nodes[p].isLeaf && t.fen[c].level + 1 == t.fen[p].level <= t.fen[t.root].level
            && t.fen[p].lo <= t.fen[c].lo && t.fen[c].hi <= t.fen[p].hi
  {
    var i := IndexIn(t, c);
    assert NodeOK(t, NoGap, c);
    var p := t.nodes[c].parent;
    assert NodeOK(t, NoGap, p);
    assert KidOK(t, NoGap, p, i);
  }

  // ----- lookup

  /** The position of `key` in a leaf, or |keys|. */
  function Find(keys: seq<nat>, key: nat): (i: nat)
    ensures i <= |keys|
    ensures i < |keys| <==> key in keys
    ensures i < |keys| ==> keys[i] == key
  {
    if keys == [] then 0 else if keys[0] == key then 0 else 1 + Find(keys[1..], key)
  }

  /** index_read: the chain found in the leaf reached from the root; no chain if the key is missing. */
  function Lookup(t: Tree, key: nat): Option<seq<Item>>
    requires Inv(t, NoGap) && key < KEY_END
  {
    var l := t.nodes[LeafFor(t, t.root, key)];
    var i := Find(l.keys, key);
    if i < |l.keys| && i < |l.items| then Some(l.items[i]) else None
  }

  /** Lookup agrees with the multimap, on every key, present or not. */
  lemma LookupExact(t: Tree, m: map<nat, seq<Item>>, key: nat)
    requires Inv(t, NoGap) && Holds(t.nodes, m) && key < KEY_END
    ensures Lookup(t, key) == if key in m then Some(m[key]) else None
  {
    var l := LeafFor(t, t.root, key);
    assert NodeOK(t, NoGap, l);
    var i := Find(t.nodes[l].keys, key);
    if key in m {
      assert Located(t.nodes, key);
      var n :| 0 <= n < |t.nodes| && t.nodes[n].isLeaf && key in t.nodes[n].keys;
      assert NodeOK(t, NoGap, n);
      CoverUnique(t, l, n, key);
    }
    if i < |t.nodes[l].keys| {
      assert t.nodes[l].keys[i] in m;
    }
  }
}
