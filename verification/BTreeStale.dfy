/**
 * find_leaf() (untrusted/cache/index_btree.cpp) reads the root pointer before it latches the root
 * and does not look again, so a split of the root in between makes it start below the new root:
 * which keys it still finds.
 */
module BTreeStale {
  import opened BTree
  import opened BTreeProof
  import opened BTreeScan

  lemma KidExists(t: Tree, n: nat, key: nat)
    requires Inv(t, NoGap) && n < |t.nodes| && !t.nodes[n].isLeaf
    ensures |t.nodes[n].kids| == |t.nodes[n].keys| + 1
    ensures var c := t.nodes[n].kids[ChildIndex(t.nodes[n].keys, key)];
            c < |t.nodes| && t.fen[c].level < t.fen[n].level && t.fen[n].lo <= t.fen[c].lo && t.fen[c].hi <= t.fen[n].hi
  {
    assert NodeOK(t, NoGap, n);
    assert KidOK(t, NoGap, n, ChildIndex(t.nodes[n].keys, key));
  }

  /** The leaf a descent from `n` ends in, whether or not the key belongs below `n`. */
  function Descend(t: Tree, n: nat, key: nat): (l: nat)
    requires Inv(t, NoGap) && n < |t.nodes|
    ensures l < |t.nodes| && t.nodes[l].isLeaf
    ensures t.fen[n].lo <= t.fen[l].lo && t.fen[l].hi <= t.fen[n].hi
    decreases t.fen[n].level
  {
    if t.nodes[n].isLeaf then n
    else
      KidExists(t, n, key);
      Descend(t, t.nodes[n].kids[ChildIndex(t.nodes[n].keys, key)], key)
  }

  lemma {:induction false} DescendCovers(t: Tree, n: nat, key: nat)
    requires Inv(t, NoGap) && n < |t.nodes| && Covers(t.fen[n], key)
    ensures Descend(t, n, key) == LeafFor(t, n, key)
    decreases t.fen[n].level
  {
    if !t.nodes[n].isLeaf {
      Followed(t, n, key);
      DescendCovers(t, t.nodes[n].kids[ChildIndex(t.nodes[n].keys, key)], key);
    }
  }

  /**
   * A descent from any node finds the leaf responsible for the key, the one found from the
   * root, exactly when the key lies between the node's fences.
   */
  lemma DescendExact(t: Tree, n: nat, key: nat)
    requires Inv(t, NoGap) && n < |t.nodes| && key < KEY_END
    ensures Descend(t, n, key) == LeafFor(t, t.root, key) <==> Covers(t.fen[n], key)
  {
    var l, r := Descend(t, n, key), LeafFor(t, t.root, key);
    if Covers(t.fen[n], key) {
      DescendCovers(t, n, key);
      assert NodeOK(t, NoGap, l) && NodeOK(t, NoGap, r);
      CoverUnique(t, l, r, key);
    }
  }

  /**
   * So index_read(), which asserts that the key is in the leaf, does so with right for a key
   * that is there exactly when the key lies between the fences of the node it started from.
   */
  lemma ReadFrom(t: Tree, m: map<nat, seq<Item>>, n: nat, key: nat)
    requires Inv(t, NoGap) && Holds(t.nodes, m) && n < |t.nodes| && key in m
    ensures key in t.nodes[Descend(t, n, key)].keys <==> Covers(t.fen[n], key)
  {
    var l := Descend(t, n, key);
    KeyInLeaf(t, m, l, key);
    assert NodeOK(t, NoGap, l);
    if Covers(t.fen[n], key) {
      DescendCovers(t, n, key);
    }
  }

  /**
   * A reader that took the root's pointer just before the root was split finds exactly the keys
   * below the separator.
   */
  lemma StaleRoot(t: Tree, g: Gap, m: map<nat, seq<Item>>, key: nat)
    requires Inv(t, g) && g.Gap? && g.left == t.root && key in m && Holds(Raise(t, g).nodes, m)
    ensures Inv(Raise(t, g), NoGap)
    ensures key in Raise(t, g).nodes[Descend(Raise(t, g), t.root, key)].keys <==> key < g.key
  {
    RaiseKeeps(t, g);
    ReadFrom(Raise(t, g), m, t.root, key);
  }

  /** And there always is a key that it misses: its assertion fails although the key is there. */
  lemma StaleRootMisses(t: Tree, g: Gap, m: map<nat, seq<Item>>)
    requires Inv(t, g) && g.Gap? && g.left == t.root && Holds(Raise(t, g).nodes, m) && Filled(Raise(t, g))
    ensures Inv(Raise(t, g), NoGap)
    ensures exists key :: key in m && key !in Raise(t, g).nodes[Descend(Raise(t, g), t.root, key)].keys
  {
    RaiseKeeps(t, g);
    var u := Raise(t, g);
    var l := Descend(u, g.right, g.key);
    assert NodeOK(u, NoGap, l) && FillOK(u, l);
    var key := u.nodes[l].keys[0];
    assert key in m;
    StaleRoot(t, g, m, key);
  }
}
