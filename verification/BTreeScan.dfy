/**
 * Consequences of the tree's invariant: the leaf chain visits the keys in order
 * (index_next, untrusted/cache/index_btree.cpp:134-155), and the depth is bounded.
 */
module BTreeScan {
  import opened Wrappers
  import opened BTree

  // ----- scanning

  /** No node reaches beyond the key space. */
  lemma {:induction false} HiBound(t: Tree, n: nat)
    requires Inv(t, NoGap) && n < |t.nodes|
    ensures t.fen[n].hi <= KEY_END
    decreases t.fen[t.root].level - t.fen[n].level
  {
    if n != t.root {
      InParent(t, n);
      HiBound(t, t.nodes[n].parent);
    }
  }

  /** A key of the multimap that lies within a leaf's fences is in that leaf. */
  lemma KeyInLeaf(t: Tree, m: map<nat, seq<Item>>, l: nat, k: nat)
    requires Inv(t, NoGap) && Holds(t.nodes, m) && k in m && l < |t.nodes| && t.nodes[l].isLeaf
    ensures k < KEY_END
    ensures Covers(t.fen[l], k) ==> k in t.nodes[l].keys
  {
    assert Located(t.nodes, k);
    var n :| 0 <= n < |t.nodes| && t.nodes[n].isLeaf && k in t.nodes[n].keys;
    assert NodeOK(t, NoGap, n) && NodeOK(t, NoGap, l);
    HiBound(t, n);
    if Covers(t.fen[l], k) {
      CoverUnique(t, l, n, k);
    }
  }

  /** The next leaf in the chain, which is never empty. */
  lemma NextLeaf(t: Tree, l: nat)
    requires Inv(t, NoGap) && Filled(t) && l < |t.nodes| && t.nodes[l].isLeaf && t.nodes[l].next != NONE
    ensures var r := t.nodes[l].next; 0 <= r < |t.nodes| && t.nodes[r].isLeaf && |t.nodes[r].keys| >= 1 && t.fen[r].lo == t.fen[l].hi
  {
    assert NodeOK(t, NoGap, l);
    var r := t.nodes[l].next;
    assert NodeOK(t, NoGap, r) && FillOK(t, r);
    if r == t.root && l != t.root {
      InParent(t, l);
    }
  }

  /** `next` is the least key of `m` above `key`. */
  ghost predicate IsSuccessor(m: map<nat, seq<Item>>, key: nat, next: nat) {
    next in m && key < next && forall k :: k in m && key < k ==> next <= k
  }

  /** The cursor after `(l, i)`: the next key of the leaf, or the first of the next leaf. */
  function Step(t: Tree, l: nat, i: nat): (int, nat)
    requires l < |t.nodes| && i < |t.nodes[l].keys|
  {
    if i + 1 >= |t.nodes[l].keys| then (t.nodes[l].next, 0) else (l, i + 1)
  }

  /** The step lands on the successor, and ends exactly at the greatest key. */
  lemma StepIsSuccessor(t: Tree, m: map<nat, seq<Item>>, l: nat, i: nat)
    requires Inv(t, NoGap) && Filled(t) && Holds(t.nodes, m) && l < |t.nodes| && t.nodes[l].isLeaf && i < |t.nodes[l].keys|
    ensures var (r, j) := Step(t, l, i);
            var key := t.nodes[l].keys[i];
            if r == NONE then forall k :: k in m ==> k <= key
            else && 0 <= r < |t.nodes| && t.nodes[r].isLeaf && j < |t.nodes[r].keys| == |t.nodes[r].items|
                 && IsSuccessor(m, key, t.nodes[r].keys[j]) && m[t.nodes[r].keys[j]] == t.nodes[r].items[j]
  {
    var (r, j) := Step(t, l, i);
    var key := t.nodes[l].keys[i];
    assert NodeOK(t, NoGap, l);
    if r != NONE {
      if r != l {
        NextLeaf(t, l);
      }
      assert NodeOK(t, NoGap, r);
      assert t.nodes[r].keys[j] in m;
    }
    forall k | k in m && key < k
      ensures r != NONE && t.nodes[r].keys[j] <= k
    {
      KeyInLeaf(t, m, l, k);
      if r != NONE {
        KeyInLeaf(t, m, r, k);
      }
    }
  }

  /** index_next: the item of the next key; with `samekey`, never one, since keys do not repeat. */
  method Next(nodes: seq<Node>, ghost t: Tree, ghost m: map<nat, seq<Item>>, l: nat, i: nat, samekey: bool)
      returns (r: int, j: nat, item: Option<seq<Item>>)
    requires t.nodes == nodes && Inv(t, NoGap) && Filled(t) && Holds(t.nodes, m) && l < |t.nodes| && t.nodes[l].isLeaf
        && i < |t.nodes[l].keys|
    ensures (r, j) == Step(t, l, i)
    ensures samekey ==> item == None
    ensures !samekey ==> (item == None <==> forall k :: k in m ==> k <= t.nodes[l].keys[i])
    ensures !samekey && item.Some? ==> exists k :: IsSuccessor(m, t.nodes[l].keys[i], k) && item.value == m[k]
  {
    StepIsSuccessor(t, m, l, i);
    var curKey := nodes[l].keys[i];
    r, j := l, i + 1;
    if j >= |nodes[l].keys| {
      r, j := nodes[l].next, 0;
    }
    if r == NONE {
      item := None;
    } else if samekey && nodes[r].keys[j] != curKey {
      item := None;
    } else {
      item := Some(nodes[r].items[j]);
    }
  }

  // ----- depth

  function Pow8(n: nat): (r: nat)
    ensures r >= 1
  {
    if n == 0 then 1 else 8 * Pow8(n - 1)
  }

  lemma {:induction false} AscendingSpan(keys: seq<nat>, lo: nat, hi: nat)
    requires Ascending(keys) && forall i :: 0 <= i < |keys| ==> lo <= keys[i] < hi
    requires keys != []
    ensures lo + |keys| <= keys[|keys| - 1] + 1 <= hi
  {
    if |keys| > 1 {
      AscendingSpan(keys[..|keys| - 1], lo, hi);
    }
  }

  /** Below the root a node's range is at least as wide as its level makes it. */
  lemma {:induction false} Width(t: Tree, n: nat)
    requires Inv(t, NoGap) && Filled(t) && n < |t.nodes| && n != t.root
    ensures t.fen[n].lo + Pow8(t.fen[n].level + 1) <= t.fen[n].hi
    decreases t.fen[n].level, 2, 0
  {
    assert NodeOK(t, NoGap, n) && FillOK(t, n);
    if t.nodes[n].isLeaf {
      AscendingSpan(t.nodes[n].keys, t.fen[n].lo, t.fen[n].hi);
      assert Pow8(1) == 8 * Pow8(0) == 8;
    } else {
      KidsWidth(t, n, |t.nodes[n].kids|);
      Times(8, |t.nodes[n].kids|, Pow8(t.fen[n].level));
    }
  }

  lemma Times(a: nat, b: nat, x: nat)
    requires a <= b
    ensures a * x <= b * x
  {
  }

  /** The first `i` children side by side. */
  lemma {:induction false} KidsWidth(t: Tree, n: nat, i: nat)
    requires Inv(t, NoGap) && Filled(t) && n < |t.nodes| && !t.nodes[n].isLeaf && i <= |t.nodes[n].kids|
    ensures |t.nodes[n].kids| == |t.nodes[n].keys| + 1
    ensures t.fen[n].lo + i * Pow8(t.fen[n].level) <= if i == 0 then t.fen[n].lo else HiAt(t.nodes[n], t.fen[n], i - 1)
    decreases t.fen[n].level, 1, i
  {
    assert NodeOK(t, NoGap, n);
    if i > 0 {
      KidsWidth(t, n, i - 1);
      assert KidOK(t, NoGap, n, i - 1);
      var c := t.nodes[n].kids[i - 1];
      assert c != t.root;
      Width(t, c);
      assert i * Pow8(t.fen[n].level) == (i - 1) * Pow8(t.fen[n].level) + Pow8(t.fen[n].level);
    }
  }

  lemma {:induction false} Pow8Mono(a: nat, b: nat)
    requires a <= b
    ensures Pow8(a) <= Pow8(b)
  {
    if a < b {
      Pow8Mono(a, b - 1);
    }
  }

  lemma Pow8By4(n: nat)
    ensures Pow8(n + 4) == 4096 * Pow8(n)
  {
    assert Pow8(n + 2) == 8 * Pow8(n + 1);
  }

  lemma Pow8At22()
    ensures Pow8(22) == 0x4_0000_0000_0000_0000
  {
    Pow8By4(2);
    Pow8By4(6);
    Pow8By4(10);
    Pow8By4(14);
    Pow8By4(18);
    assert Pow8(2) == 8 * Pow8(1);
  }

  /** For 64-bit keys the root is at most 21 levels above the leaves: a path has at most 22 nodes. */
  lemma DepthBound(t: Tree)
    requires Inv(t, NoGap) && Filled(t)
    ensures forall n :: 0 <= n < |t.nodes| ==> t.fen[n].level <= 21
  {
    var h := t.fen[t.root].level;
    assert NodeOK(t, NoGap, t.root) && FillOK(t, t.root);
    if h > 21 {
      KidsWidth(t, t.root, |t.nodes[t.root].kids|);
      Times(2, |t.nodes[t.root].kids|, Pow8(h));
      Pow8Mono(22, h);
      Pow8At22();
    }
    forall n | 0 <= n < |t.nodes|
      ensures t.fen[n].level <= 21
    {
      assert NodeOK(t, NoGap, n);
    }
  }
}
