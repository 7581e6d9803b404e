/**
 * What the changes of an insertion do to the multimap, to the occupancy of the nodes and to the
 * chain of nodes that may change.
 */
module BTreeContent {
  import opened BTree
  import opened BTreeProof

  // ----- the multimap

  /** No other leaf has the key that belongs in `l`. */
  lemma OnlyHere(t: Tree, l: nat, n: nat, key: nat)
    requires Inv(t, NoGap) && l < |t.nodes| && t.nodes[l].isLeaf && Covers(t.fen[l], key)
    requires n < |t.nodes| && t.nodes[n].isLeaf && key in t.nodes[n].keys
    ensures n == l
  {
    assert NodeOK(t, NoGap, l) && NodeOK(t, NoGap, n);
    CoverUnique(t, l, n, key);
  }

  /** The leaf has exactly the old keys and `key`, whose chain is now `c`. */
  ghost predicate Gains(o: Node, n: Node, key: nat, c: seq<Item>) {
    && o.isLeaf && n.isLeaf && |o.keys| == |o.items| && |n.keys| == |n.items| && key in n.keys
    && (forall i :: 0 <= i < |n.keys| ==>
          if n.keys[i] == key then n.items[i] == c
          else exists j :: 0 <= j < |o.keys| && o.keys[j] == n.keys[i] && o.items[j] == n.items[i])
    && (forall k :: k in o.keys ==> k in n.keys)
  }

  lemma GainsHolds(t: Tree, l: nat, n: Node, key: nat, c: seq<Item>, m: map<nat, seq<Item>>)
    requires Inv(t, NoGap) && Holds(t.nodes, m) && l < |t.nodes| && Covers(t.fen[l], key)
    requires Gains(t.nodes[l], n, key, c)
    ensures Holds(t.nodes[l := n], m[key := c])
  {
    var nodes, m' := t.nodes[l := n], m[key := c];
    forall a, i | 0 <= a < |nodes| && nodes[a].isLeaf && 0 <= i < |nodes[a].keys| && i < |nodes[a].items|
      ensures nodes[a].keys[i] in m' && m'[nodes[a].keys[i]] == nodes[a].items[i]
    {
      if a != l && nodes[a].keys[i] == key {
        OnlyHere(t, l, a, key);
      }
    }
    forall k | k in m'
      ensures Located(nodes, k)
    {
      if k != key {
        assert Located(t.nodes, k);
        var a :| 0 <= a < |t.nodes| && t.nodes[a].isLeaf && k in t.nodes[a].keys;
        assert k in nodes[a].keys;
      } else {
        assert k in nodes[l].keys;
      }
    }
  }

  /** A key not yet in the leaf, inserted at its place. */
  lemma InsertGains(o: Node, i: nat, key: nat, item: Item)
    requires o.isLeaf && |o.keys| == |o.items| && i <= |o.keys| && key !in o.keys
    ensures Gains(o, o.(keys := InsertAt(o.keys, i, key), items := InsertAt(o.items, i, [item])), key, [item])
  {
    var n := o.(keys := InsertAt(o.keys, i, key), items := InsertAt(o.items, i, [item]));
    assert n.keys[i] == key;
    forall j | 0 <= j < |n.keys| && n.keys[j] != key
      ensures exists k :: 0 <= k < |o.keys| && o.keys[k] == n.keys[j] && o.items[k] == n.items[j]
    {
      var k := if j < i then j else j - 1;
      assert o.keys[k] == n.keys[j] && o.items[k] == n.items[j];
    }
    forall k | k in o.keys
      ensures k in n.keys
    {
      var j :| 0 <= j < |o.keys| && o.keys[j] == k;
      assert n.keys[if j < i then j else j + 1] == k;
    }
  }

  /** A key already in the leaf gets the item at the head of its chain. */
  lemma PrependGains(o: Node, i: nat, item: Item)
    requires o.isLeaf && |o.keys| == |o.items| && i < |o.keys| && Ascending(o.keys)
    ensures Gains(o, o.(items := o.items[i := [item] + o.items[i]]), o.keys[i], [item] + o.items[i])
  {
  }

  lemma CutLeafHolds(t: Tree, l: nat, c: nat, m: map<nat, seq<Item>>)
    requires Sized(t, NoGap) && l < |t.nodes| && t.nodes[l].isLeaf && c < |t.nodes[l].keys| == |t.nodes[l].items|
    requires Holds(t.nodes, m)
    ensures Holds(CutLeaf(t, l, c).nodes, m)
  {
    var u := CutLeaf(t, l, c);
    var n := t.nodes[l];
    assert n.keys == n.keys[..c] + n.keys[c..];
    forall k | k in m
      ensures Located(u.nodes, k)
    {
      assert Located(t.nodes, k);
      var a :| 0 <= a < |t.nodes| && t.nodes[a].isLeaf && k in t.nodes[a].keys;
      if a == l {
        assert k in u.nodes[l].keys || k in u.nodes[|t.nodes|].keys;
      } else {
        assert k in u.nodes[a].keys;
      }
    }
  }

  /** The leaves of `b` are those of `a`, with the same keys and chains. */
  predicate SameLeaves(a: seq<Node>, b: seq<Node>) {
    && |a| <= |b|
    && (forall n :: 0 <= n < |a| ==> a[n].isLeaf == b[n].isLeaf && (a[n].isLeaf ==> a[n].keys == b[n].keys && a[n].items == b[n].items))
    && (forall n :: |a| <= n < |b| ==> !b[n].isLeaf)
  }

  lemma SameLeavesHold(a: seq<Node>, b: seq<Node>, m: map<nat, seq<Item>>)
    requires SameLeaves(a, b) && Holds(a, m)
    ensures Holds(b, m)
  {
    forall k | k in m
      ensures Located(b, k)
    {
      assert Located(a, k);
      var n :| 0 <= n < |a| && a[n].isLeaf && k in a[n].keys;
      assert k in b[n].keys;
    }
  }

  // ----- occupancy

  /** Both halves of a cut are full enough not to be roots. */
  predicate HalfFull(n: Node) {
    |n.keys| <= ORDER - 1 && |n.keys| >= if n.isLeaf then 8 else 7
  }

  predicate GapFilled(t: Tree, g: Gap)
    requires Sized(t, g)
  {
    g.Gap? && Filled(t) && HalfFull(t.nodes[g.left]) && HalfFull(t.nodes[g.right])
  }

  /** Every node but `l` is filled. */
  predicate FilledBut(t: Tree, l: nat) {
    forall n :: 0 <= n < |t.nodes| && n != l ==> FillOK(t, n)
  }

  lemma PutFilled(t: Tree, l: nat, n: Node)
    requires l < |t.nodes| && Filled(t) && n.isLeaf == t.nodes[l].isLeaf && |t.nodes[l].keys| <= |n.keys|
    ensures FilledBut(PutNode(t, l, n), l)
    ensures |n.keys| <= ORDER - 1 ==> Filled(PutNode(t, l, n))
  {
    forall k | 0 <= k < |t.nodes|
      ensures k != l || |n.keys| <= ORDER - 1 ==> FillOK(PutNode(t, l, n), k)
    {
      assert FillOK(t, k);
    }
  }

  lemma CutLeafFilled(t: Tree, l: nat)
    requires Sized(t, NoGap) && FilledBut(t, l) && l < |t.nodes| && t.nodes[l].isLeaf && |t.nodes[l].keys| == |t.nodes[l].items| == ORDER
    ensures GapFilled(CutLeaf(t, l, 8), Gap(l, t.nodes[l].keys[8], |t.nodes|))
  {
    var u := CutLeaf(t, l, 8);
    forall n | 0 <= n < |u.nodes|
      ensures FillOK(u, n)
    {
      assert n < |t.nodes| && n != l ==> FillOK(t, n);
    }
  }

  lemma CutInnerFilled(t: Tree, p: nat)
    requires Sized(t, NoGap) && FilledBut(t, p) && p < |t.nodes| && !t.nodes[p].isLeaf && p !in t.nodes[p].kids
    requires |t.nodes[p].keys| == ORDER && |t.nodes[p].kids| == ORDER + 1
    ensures GapFilled(CutInner(t, p, 7), Gap(p, t.nodes[p].keys[7], |t.nodes|))
  {
    var u := CutInner(t, p, 7);
    forall n | 0 <= n < |u.nodes|
      ensures FillOK(u, n)
    {
      assert n < |t.nodes| && n != p ==> FillOK(t, n);
    }
  }

  lemma RaiseFilled(t: Tree, g: Gap)
    requires Sized(t, g) && GapFilled(t, g) && g.left == t.root && g.left != g.right
    ensures Filled(Raise(t, g))
  {
    var u := Raise(t, g);
    forall n | 0 <= n < |u.nodes|
      ensures FillOK(u, n)
    {
      assert n < |t.nodes| ==> FillOK(t, n);
    }
  }

  // ----- the nodes an insertion may change

  /** Except under a gap's right node, a parent is one level up. */
  lemma ParentUp(t: Tree, g: Gap, c: nat)
    requires Inv(t, g) && c < |t.nodes| && c != t.root && !(g.Gap? && c == g.right)
    ensures var p := t.nodes[c].parent;
            && 0 <= p < |t.nodes| && !t.nodes[p].isLeaf && t.fen[c].level + 1 == t.fen[p].level <= t.fen[t.root].level
            && c in t.nodes[p].kids && |t.nodes[p].kids| == |t.nodes[p].keys| + 1
  {
    assert NodeOK(t, g, c);
    var p := t.nodes[c].parent;
    assert NodeOK(t, g, p);
    var i :| 0 <= i < |t.nodes[p].kids| && t.nodes[p].kids[i] == c;
    assert KidOK(t, g, p, i);
  }

  /** Above the gap, and not its right node. */
  predicate Above(t: Tree, g: Gap, n: nat)
    requires Sized(t, g)
  {
    n < |t.nodes| && (g.Gap? ==> n != g.right && t.fen[g.right].level <= t.fen[n].level)
  }

  /** A node and, as long as they are full, its ancestors: up to the lowest that is not full. */
  ghost function Touched(t: Tree, g: Gap, n: nat): set<nat>
    requires Inv(t, g) && Above(t, g, n)
    decreases t.fen[t.root].level - t.fen[n].level
  {
    if n == t.root || |t.nodes[n].keys| < ORDER - 1 then {n}
    else
      ParentUp(t, g, n);
      {n} + Touched(t, g, t.nodes[n].parent)
  }

  /** The separator's way up: nothing when the root itself was cut. */
  ghost function TouchedAbove(t: Tree, g: Gap, n: nat): set<nat>
    requires Inv(t, g) && Above(t, g, n)
  {
    if n == t.root then {}
    else
      ParentUp(t, g, n);
      Touched(t, g, t.nodes[n].parent)
  }

  /** `u` agrees with `t` on the nodes above level `low`. */
  predicate SameAbove(t: Tree, u: Tree, low: nat)
    requires Sized(t, NoGap) && Sized(u, NoGap)
  {
    && t.root == u.root && |t.nodes| <= |u.nodes|
    && (forall n :: 0 <= n < |t.nodes| ==> t.fen[n].level == u.fen[n].level)
    && (forall n :: 0 <= n < |t.nodes| && low < t.fen[n].level ==>
        t.nodes[n].parent == u.nodes[n].parent && |t.nodes[n].keys| == |u.nodes[n].keys|)
  }

  lemma {:induction false} TouchedSame(t: Tree, g: Gap, u: Tree, h: Gap, low: nat, n: nat)
    requires Inv(t, g) && Inv(u, h) && SameAbove(t, u, low) && Above(t, g, n) && Above(u, h, n) && low < t.fen[n].level
    ensures Touched(t, g, n) == Touched(u, h, n)
    decreases t.fen[t.root].level - t.fen[n].level
  {
    if n != t.root && |t.nodes[n].keys| >= ORDER - 1 {
      ParentUp(t, g, n);
      TouchedSame(t, g, u, h, low, t.nodes[n].parent);
    }
  }

  /** Outside `s`, the old nodes keep their keys, chains and children. */
  predicate SameBut(a: seq<Node>, b: seq<Node>, s: set<nat>) {
    && |a| <= |b|
    && (forall n :: 0 <= n < |a| && n !in s ==>
          a[n].isLeaf == b[n].isLeaf && a[n].keys == b[n].keys && a[n].items == b[n].items && a[n].kids == b[n].kids)
  }
}
