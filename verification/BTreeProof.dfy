/**
 * The five changes an insertion makes to the tree (untrusted/cache/index_btree.cpp:394-651):
 * a leaf gains a key, a leaf or an inner node is cut in two, a separator is added to a parent,
 * a new root is put on top. Each keeps the invariant, up to the gap between a cut and the
 * separator that records it.
 */
module BTreeProof {
  import opened BTree

  function InsertAt<T>(s: seq<T>, i: nat, x: T): (r: seq<T>)
    requires i <= |s|
    ensures |r| == |s| + 1
  {
    s[..i] + [x] + s[i..]
  }

  /** The place of a new key: after all smaller ones. */
  predicate IsPlace(keys: seq<nat>, key: nat, i: nat) {
    i <= |keys| && (forall j :: 0 <= j < i ==> keys[j] < key) && (forall j :: i <= j < |keys| ==> key < keys[j])
  }

  lemma InsertAscending(keys: seq<nat>, key: nat, i: nat)
    requires Ascending(keys) && IsPlace(keys, key, i)
    ensures Ascending(InsertAt(keys, i, key))
  {
  }

  // ----- a leaf gains a key or an item

  function PutNode(t: Tree, l: nat, n: Node): Tree
    requires l < |t.nodes|
  {
    t.(nodes := t.nodes[l := n])
  }

  /** Nodes keep their conditions when another one changes only what it holds. */
  lemma LeafChanged(t: Tree, l: nat, n: Node)
    requires Inv(t, NoGap) && l < |t.nodes| && t.nodes[l].isLeaf
    requires n == t.nodes[l].(keys := n.keys, items := n.items) && LeafOK(n, t.fen[l])
    ensures Inv(PutNode(t, l, n), NoGap)
  {
    var u := PutNode(t, l, n);
    forall k | 0 <= k < |u.nodes|
      ensures NodeOK(u, NoGap, k)
    {
      assert NodeOK(t, NoGap, k);
      forall i | !u.nodes[k].isLeaf && 0 <= i < |u.nodes[k].kids|
        ensures KidOK(u, NoGap, k, i)
      {
        assert KidOK(t, NoGap, k, i);
      }
    }
  }

  // ----- a leaf is cut

  function CutLeaf(t: Tree, l: nat, m: nat): Tree
    requires l < |t.nodes| == |t.fen| && m < |t.nodes[l].keys| == |t.nodes[l].items|
  {
    var n, f := t.nodes[l], t.fen[l];
    Tree(t.nodes[l := n.(keys := n.keys[..m], items := n.items[..m], next := |t.nodes|)]
         + [Node(true, n.keys[m..], n.items[m..], [], n.parent, n.next)],
         t.root,
         t.fen[l := f.(hi := n.keys[m])] + [Fence(0, n.keys[m], f.hi)])
  }

  lemma CutLeafKeeps(t: Tree, l: nat, m: nat)
    requires Inv(t, NoGap) && l < |t.nodes| && t.nodes[l].isLeaf
    requires 1 <= m < |t.nodes[l].keys| == |t.nodes[l].items|
    ensures Inv(CutLeaf(t, l, m), Gap(l, t.nodes[l].keys[m], |t.nodes|))
  {
    var u, g := CutLeaf(t, l, m), Gap(l, t.nodes[l].keys[m], |t.nodes|);
    assert NodeOK(t, NoGap, l) && NodeOK(t, NoGap, t.root);
    assert t.nodes[l].keys[0] < t.nodes[l].keys[m];
    forall k | 0 <= k < |u.nodes|
      ensures NodeOK(u, g, k)
    {
      CutLeafNode(t, l, m, k);
    }
  }

  lemma CutLeafNode(t: Tree, l: nat, m: nat, k: nat)
    requires Inv(t, NoGap) && l < |t.nodes| && t.nodes[l].isLeaf && k <= |t.nodes|
    requires 1 <= m < |t.nodes[l].keys| == |t.nodes[l].items|
    ensures Sized(CutLeaf(t, l, m), Gap(l, t.nodes[l].keys[m], |t.nodes|))
    ensures NodeOK(CutLeaf(t, l, m), Gap(l, t.nodes[l].keys[m], |t.nodes|), k)
  {
    var u, g := CutLeaf(t, l, m), Gap(l, t.nodes[l].keys[m], |t.nodes|);
    assert NodeOK(t, NoGap, l);
    if k < |t.nodes| {
      assert NodeOK(t, NoGap, k);
      forall i | !u.nodes[k].isLeaf && 0 <= i < |u.nodes[k].kids|
        ensures KidOK(u, g, k, i)
      {
        assert KidOK(t, NoGap, k, i);
      }
    }
  }

  // ----- the separator is added to the parent

  function Attach(t: Tree, g: Gap, i: nat): Tree
    requires g.Gap? && g.left < |t.nodes| && 0 <= t.nodes[g.left].parent < |t.nodes|
    requires var n := t.nodes[t.nodes[g.left].parent]; i <= |n.keys| && i < |n.kids|
  {
    var p := t.nodes[g.left].parent;
    var n := t.nodes[p];
    PutNode(t, p, n.(keys := InsertAt(n.keys, i, g.key), kids := InsertAt(n.kids, i + 1, g.right)))
  }

  /** The place of the separator is next to the node that was cut. */
  lemma GapPlace(t: Tree, g: Gap, i: nat)
    requires Inv(t, g) && g.Gap? && g.left != t.root
    requires 0 <= t.nodes[g.left].parent < |t.nodes| && IsPlace(t.nodes[t.nodes[g.left].parent].keys, g.key, i)
    ensures var n := t.nodes[t.nodes[g.left].parent]; !n.isLeaf && |n.kids| == |n.keys| + 1 && n.kids[i] == g.left
  {
    assert NodeOK(t, g, g.left);
    var p := t.nodes[g.left].parent;
    assert NodeOK(t, g, p);
    var j :| 0 <= j < |t.nodes[p].kids| && t.nodes[p].kids[j] == g.left;
    assert KidOK(t, g, p, j);
  }

  /** The parent's children after the separator is in. */
  lemma AttachKids(t: Tree, g: Gap, i: nat, j: nat)
    requires Inv(t, g) && g.Gap? && g.left != t.root
    requires 0 <= t.nodes[g.left].parent < |t.nodes| && IsPlace(t.nodes[t.nodes[g.left].parent].keys, g.key, i)
    requires j <= |t.nodes[t.nodes[g.left].parent].kids|
    ensures var n := t.nodes[t.nodes[g.left].parent]; !n.isLeaf && |n.kids| == |n.keys| + 1
    ensures KidOK(Attach(t, g, i), NoGap, t.nodes[g.left].parent, j)
  {
    GapPlace(t, g, i);
    var p := t.nodes[g.left].parent;
    var n := t.nodes[p];
    assert NodeOK(t, g, p);
    assert KidOK(t, g, p, i);
    assert p != g.left && p != g.right;
    var o := if j <= i then j else j - 1;
    assert KidOK(t, g, p, o);
    if o != i {
      KidsDistinct(t, g, p, i, o);
    }
  }

  lemma KidsDistinct(t: Tree, g: Gap, n: nat, i: nat, j: nat)
    requires Inv(t, g) && n < |t.nodes| && !t.nodes[n].isLeaf && i < |t.nodes[n].kids| && j < |t.nodes[n].kids| && i != j
    ensures t.nodes[n].kids[i] != t.nodes[n].kids[j]
  {
    assert NodeOK(t, g, n);
    assert KidOK(t, g, n, i) && KidOK(t, g, n, j);
  }

  lemma AttachKeeps(t: Tree, g: Gap, i: nat)
    requires Inv(t, g) && g.Gap? && g.left != t.root
    requires 0 <= t.nodes[g.left].parent < |t.nodes| && IsPlace(t.nodes[t.nodes[g.left].parent].keys, g.key, i)
    ensures var n := t.nodes[t.nodes[g.left].parent]; !n.isLeaf && |n.kids| == |n.keys| + 1
    ensures Inv(Attach(t, g, i), NoGap)
  {
    GapPlace(t, g, i);
    var p, u := t.nodes[g.left].parent, Attach(t, g, i);
    assert NodeOK(t, g, p);
    assert KidOK(t, g, p, i);
    InsertAscending(t.nodes[p].keys, g.key, i);
    forall k | 0 <= k < |u.nodes|
      ensures NodeOK(u, NoGap, k)
    {
      assert NodeOK(t, g, k);
      if k == p {
        forall j | 0 <= j < |u.nodes[p].kids|
          ensures KidOK(u, NoGap, p, j)
        {
          AttachKids(t, g, i, j);
        }
      } else {
        forall j | !u.nodes[k].isLeaf && 0 <= j < |u.nodes[k].kids|
          ensures KidOK(u, NoGap, k, j)
        {
          assert KidOK(t, g, k, j);
        }
      }
      if k == g.right {
        assert u.nodes[p].kids[i + 1] == k;
      }
    }
  }

  // ----- an inner node is cut

  /** The nodes `ks` get the parent `q`. */
  function Reparent(nodes: seq<Node>, ks: seq<nat>, q: nat): (r: seq<Node>)
    ensures |r| == |nodes|
    ensures forall k :: 0 <= k < |nodes| ==> r[k] == if k in ks then nodes[k].(parent := q) else nodes[k]
  {
    seq(|nodes|, (k: nat) requires k < |nodes| => if k in ks then nodes[k].(parent := q) else nodes[k])
  }

  function CutInner(t: Tree, p: nat, m: nat): (u: Tree)
    requires p < |t.nodes| == |t.fen| && m < |t.nodes[p].keys| < |t.nodes[p].kids|
  {
    var n, f, q := t.nodes[p], t.fen[p], |t.nodes|;
    Tree(Reparent(t.nodes[p := n.(keys := n.keys[..m], kids := n.kids[..m + 1], next := q)], n.kids[m + 1..], q)
         + [Node(false, n.keys[m + 1..], [], n.kids[m + 1..], n.parent, n.next)],
         t.root,
         t.fen[p := f.(hi := n.keys[m])] + [Fence(f.level, n.keys[m], f.hi)])
  }

  /** What the cut of `p` does to the other nodes: only the moved children get a new parent. */
  lemma CutInnerNodes(t: Tree, p: nat, m: nat, k: nat)
    requires Inv(t, NoGap) && p < |t.nodes| && !t.nodes[p].isLeaf && m < |t.nodes[p].keys| < |t.nodes[p].kids| && k < |t.nodes|
    ensures var u := CutInner(t, p, m);
            && (k == p ==> u.nodes[k] == t.nodes[p].(keys := t.nodes[p].keys[..m], kids := t.nodes[p].kids[..m + 1], next := |t.nodes|))
            && (k != p ==> u.nodes[k] == t.nodes[k].(parent := u.nodes[k].parent))
            && (k != p && t.nodes[k].parent != p ==> u.nodes[k] == t.nodes[k])
            && (u.nodes[k].parent == t.nodes[k].parent || (t.nodes[k].parent == p && u.nodes[k].parent == |t.nodes|))
            && (u.nodes[k].parent == |t.nodes| <==> k in t.nodes[p].kids[m + 1..])
  {
    assert NodeOK(t, NoGap, p) && NodeOK(t, NoGap, k);
    if k in t.nodes[p].kids[m + 1..] {
      var j :| m + 1 <= j < |t.nodes[p].kids| && t.nodes[p].kids[j] == k;
      assert KidOK(t, NoGap, p, j);
    }
  }

  lemma CutInnerRight(t: Tree, p: nat, m: nat, j: nat)
    requires Inv(t, NoGap) && p < |t.nodes| && !t.nodes[p].isLeaf && m < |t.nodes[p].keys| < |t.nodes[p].kids|
    requires j < |t.nodes[p].kids| - m - 1
    ensures Sized(CutInner(t, p, m), Gap(p, t.nodes[p].keys[m], |t.nodes|))
    ensures j < |CutInner(t, p, m).nodes[|t.nodes|].kids| && j <= |CutInner(t, p, m).nodes[|t.nodes|].keys|
    ensures KidOK(CutInner(t, p, m), Gap(p, t.nodes[p].keys[m], |t.nodes|), |t.nodes|, j)
  {
    assert NodeOK(t, NoGap, p);
    assert KidOK(t, NoGap, p, j + m + 1);
    var c := t.nodes[p].kids[j + m + 1];
    CutInnerNodes(t, p, m, c);
    assert c == t.nodes[p].kids[m + 1..][j];
  }

  lemma CutInnerLeft(t: Tree, p: nat, m: nat, j: nat)
    requires Inv(t, NoGap) && p < |t.nodes| && !t.nodes[p].isLeaf && m < |t.nodes[p].keys| < |t.nodes[p].kids|
    requires j <= m
    ensures Sized(CutInner(t, p, m), Gap(p, t.nodes[p].keys[m], |t.nodes|))
    ensures j < |CutInner(t, p, m).nodes[p].kids| && j <= |CutInner(t, p, m).nodes[p].keys|
    ensures KidOK(CutInner(t, p, m), Gap(p, t.nodes[p].keys[m], |t.nodes|), p, j)
  {
    assert NodeOK(t, NoGap, p);
    assert KidOK(t, NoGap, p, j);
    var c := t.nodes[p].kids[j];
    CutInnerNodes(t, p, m, c);
    CutInnerNodes(t, p, m, p);
    if c in t.nodes[p].kids[m + 1..] {
      var i :| m + 1 <= i < |t.nodes[p].kids| && t.nodes[p].kids[i] == c;
      KidsDistinct(t, NoGap, p, i, j);
    }
  }

  lemma CutInnerOther(t: Tree, p: nat, m: nat, k: nat, j: nat)
    requires Inv(t, NoGap) && p < |t.nodes| && !t.nodes[p].isLeaf && m < |t.nodes[p].keys| < |t.nodes[p].kids|
    requires k < |t.nodes| && k != p && !t.nodes[k].isLeaf && j < |t.nodes[k].kids|
    ensures Sized(CutInner(t, p, m), Gap(p, t.nodes[p].keys[m], |t.nodes|))
    ensures j < |CutInner(t, p, m).nodes[k].kids| && j <= |CutInner(t, p, m).nodes[k].keys|
    ensures KidOK(CutInner(t, p, m), Gap(p, t.nodes[p].keys[m], |t.nodes|), k, j)
  {
    assert NodeOK(t, NoGap, k);
    assert KidOK(t, NoGap, k, j);
    CutInnerNodes(t, p, m, t.nodes[k].kids[j]);
    CutInnerNodes(t, p, m, k);
  }

  lemma CutInnerKids(t: Tree, p: nat, m: nat, k: nat, j: nat)
    requires Inv(t, NoGap) && p < |t.nodes| && !t.nodes[p].isLeaf && m < |t.nodes[p].keys| < |t.nodes[p].kids|
    requires var u := CutInner(t, p, m); k < |u.nodes| && !u.nodes[k].isLeaf && j < |u.nodes[k].kids|
    ensures var u := CutInner(t, p, m); Sized(u, Gap(p, t.nodes[p].keys[m], |t.nodes|)) && j <= |u.nodes[k].keys|
    ensures KidOK(CutInner(t, p, m), Gap(p, t.nodes[p].keys[m], |t.nodes|), k, j)
  {
    if k == |t.nodes| {
      CutInnerRight(t, p, m, j);
    } else {
      CutInnerNodes(t, p, m, k);
      if k == p {
        CutInnerLeft(t, p, m, j);
      } else {
        CutInnerOther(t, p, m, k, j);
      }
    }
  }

  lemma CutInnerParent(t: Tree, p: nat, m: nat, k: nat)
    requires Inv(t, NoGap) && p < |t.nodes| && !t.nodes[p].isLeaf && m < |t.nodes[p].keys| < |t.nodes[p].kids| && k < |t.nodes|
    ensures Sized(CutInner(t, p, m), Gap(p, t.nodes[p].keys[m], |t.nodes|))
    ensures ParentOK(CutInner(t, p, m), Gap(p, t.nodes[p].keys[m], |t.nodes|), k)
  {
    var u, n := CutInner(t, p, m), t.nodes[p];
    assert NodeOK(t, NoGap, k);
    CutInnerNodes(t, p, m, k);
    if k != t.root {
      CutInnerNodes(t, p, m, t.nodes[k].parent);
      if t.nodes[k].parent == p {
        assert n.kids == n.kids[..m + 1] + n.kids[m + 1..];
      }
    }
  }

  /** The keys of each node are in order within its fences. */
  lemma CutInnerShape(t: Tree, p: nat, m: nat, k: nat)
    requires Inv(t, NoGap) && p < |t.nodes| && !t.nodes[p].isLeaf && m < |t.nodes[p].keys| < |t.nodes[p].kids|
    requires k <= |t.nodes|
    ensures var u := CutInner(t, p, m);
            |u.nodes| == |u.fen| == |t.nodes| + 1 && LeafOK(u.nodes[k], u.fen[k]) && InnerOK(u.nodes[k], u.fen[k])
  {
    assert NodeOK(t, NoGap, p);
    if k < |t.nodes| {
      assert NodeOK(t, NoGap, k);
      CutInnerNodes(t, p, m, k);
    }
  }

  lemma CutInnerNext(t: Tree, p: nat, m: nat, k: nat)
    requires Inv(t, NoGap) && p < |t.nodes| && !t.nodes[p].isLeaf && m < |t.nodes[p].keys| < |t.nodes[p].kids|
    requires k <= |t.nodes|
    ensures Sized(CutInner(t, p, m), Gap(p, t.nodes[p].keys[m], |t.nodes|))
    ensures NextOK(CutInner(t, p, m), Gap(p, t.nodes[p].keys[m], |t.nodes|), k)
  {
    assert NodeOK(t, NoGap, p);
    if k < |t.nodes| {
      assert NodeOK(t, NoGap, k);
      CutInnerNodes(t, p, m, k);
    }
  }

  lemma CutInnerNode(t: Tree, p: nat, m: nat, k: nat)
    requires Inv(t, NoGap) && p < |t.nodes| && !t.nodes[p].isLeaf && m < |t.nodes[p].keys| < |t.nodes[p].kids|
    requires k <= |t.nodes|
    ensures Sized(CutInner(t, p, m), Gap(p, t.nodes[p].keys[m], |t.nodes|))
    ensures NodeOK(CutInner(t, p, m), Gap(p, t.nodes[p].keys[m], |t.nodes|), k)
  {
    var u, g := CutInner(t, p, m), Gap(p, t.nodes[p].keys[m], |t.nodes|);
    CutInnerShape(t, p, m, k);
    CutInnerNext(t, p, m, k);
    if k < |t.nodes| {
      CutInnerParent(t, p, m, k);
    } else {
      assert NodeOK(t, NoGap, p);
    }
    forall j | !u.nodes[k].isLeaf && 0 <= j < |u.nodes[k].kids|
      ensures j <= |u.nodes[k].keys| && KidOK(u, g, k, j)
    {
      CutInnerKids(t, p, m, k, j);
    }
  }

  lemma CutInnerKeeps(t: Tree, p: nat, m: nat)
    requires Inv(t, NoGap) && p < |t.nodes| && !t.nodes[p].isLeaf && m < |t.nodes[p].keys| < |t.nodes[p].kids|
    ensures Inv(CutInner(t, p, m), Gap(p, t.nodes[p].keys[m], |t.nodes|))
  {
    var u, g := CutInner(t, p, m), Gap(p, t.nodes[p].keys[m], |t.nodes|);
    assert NodeOK(t, NoGap, p) && NodeOK(t, NoGap, t.root);
    CutInnerNodes(t, p, m, t.root);
    CutInnerNodes(t, p, m, p);
    forall k | 0 <= k < |u.nodes|
      ensures NodeOK(u, g, k)
    {
      CutInnerNode(t, p, m, k);
    }
  }

  // ----- a new root

  function Raise(t: Tree, g: Gap): Tree
    requires Sized(t, g) && g.Gap?
  {
    var r := |t.nodes|;
    Tree(t.nodes[g.left := t.nodes[g.left].(parent := r, next := g.right)][g.right := t.nodes[g.right].(parent := r)]
         + [Node(false, [g.key], [], [g.left, g.right], NONE, NONE)],
         r,
         t.fen + [Fence(t.fen[g.left].level + 1, 0, KEY_END)])
  }

  lemma RaiseKeeps(t: Tree, g: Gap)
    requires Inv(t, g) && g.Gap? && g.left == t.root
    ensures Inv(Raise(t, g), NoGap)
  {
    var u, r := Raise(t, g), |t.nodes|;
    forall k | 0 <= k < |u.nodes|
      ensures NodeOK(u, NoGap, k)
    {
      if k < r {
        assert NodeOK(t, g, k);
        forall j | !u.nodes[k].isLeaf && 0 <= j < |u.nodes[k].kids|
          ensures KidOK(u, NoGap, k, j)
        {
          assert KidOK(t, g, k, j);
        }
      }
    }
  }
}
