/**
 * The operations of the index (untrusted/cache/index_btree.cpp:170-243 and 394-659), on the nodes
 * of one partition: each updates the arena step by step and is proved against the multimap.
 */
module BTreeIndex {
  import opened Wrappers
  import opened BTree
  import opened BTreeProof
  import opened BTreeContent

  // ----- the loops on one node

  /** The first position whose key is not below `key`; the bound is checked before the key. */
  method Place(keys: seq<nat>, key: nat) returns (i: nat)
    requires Ascending(keys) && key !in keys
    ensures IsPlace(keys, key, i)
  {
    i := 0;
    while i < |keys| && keys[i] < key
      invariant i <= |keys| && forall j :: 0 <= j < i ==> keys[j] < key
    {
      i := i + 1;
    }
    assert i < |keys| ==> key != keys[i];
  }

  /** leaf_has_key */
  method LeafHasKey(keys: seq<nat>, key: nat) returns (i: int)
    ensures if key in keys then 0 <= i < |keys| && keys[i] == key else i == -1
  {
    var j := 0;
    while j < |keys|
      invariant 0 <= j <= |keys| && key !in keys[..j]
    {
      if keys[j] == key {
        return j;
      }
      j := j + 1;
    }
    i := -1;
  }

  /** Elements from `i` on move up by one, the last first, to let `x` in. */
  method ShiftIn<T>(s: seq<T>, i: nat, x: T) returns (r: seq<T>)
    requires i <= |s|
    ensures r == InsertAt(s, i, x)
  {
    r := s + [x];
    var j := |s|;
    while j > i
      invariant i <= j <= |s| && |r| == |s| + 1
      invariant forall k :: 0 <= k < j ==> r[k] == s[k]
      invariant forall k :: j < k <= |s| ==> r[k] == s[k - 1]
    {
      r := r[j := r[j - 1]];
      j := j - 1;
    }
    r := r[i := x];
  }

  /** Elements are copied to a new sequence that leaves position `i` for `x`. */
  method CopyAround<T>(s: seq<T>, i: nat, x: T) returns (r: seq<T>)
    requires i <= |s|
    ensures r == InsertAt(s, i, x)
  {
    r := seq(|s| + 1, _ => x);
    var a, b := 0, 0;
    while a < |s|
      invariant 0 <= a <= |s| && b == (if a <= i then a else a + 1) && |r| == |s| + 1
      invariant forall k :: 0 <= k < a ==> r[if k < i then k else k + 1] == s[k]
      invariant r[i] == x
    {
      if b == i {
        b := b + 1;
      }
      r := r[b := s[a]];
      a, b := a + 1, b + 1;
    }
    forall k | 0 <= k < |r|
      ensures r[k] == InsertAt(s, i, x)[k]
    {
      if k > i {
        assert r[if k - 1 < i then k - 1 else k - 1 + 1] == s[k - 1];
      }
    }
  }

  function Cut(length: nat): nat {
    if length % 2 == 0 then length / 2 else length / 2 + 1
  }

  // ----- the index

  class Index {
    var nodes: seq<Node>
    var root: nat
    ghost var fen: seq<Fence>
    ghost var content: map<nat, seq<Item>>

    ghost function T(): Tree
      reads this
    {
      Tree(nodes, root, fen)
    }

    ghost predicate Valid()
      reads this
    {
      Inv(T(), NoGap) && Filled(T()) && Holds(nodes, content)
    }

    constructor ()
      ensures Valid() && content == map[]
    {
      nodes, root := [Node(true, [], [], [], NONE, NONE)], 0;
      fen, content := [Fence(0, 0, KEY_END)], map[];
    }

    method FindLeaf(key: nat) returns (l: nat)
      requires Inv(T(), NoGap) && key < KEY_END
      ensures l == LeafFor(T(), root, key)
    {
      l := root;
      while !nodes[l].isLeaf
        invariant l < |nodes| && Covers(fen[l], key) && LeafFor(T(), l, key) == LeafFor(T(), root, key)
        decreases fen[l].level
      {
        Followed(T(), l, key);
        var i := 0;
        while i < |nodes[l].keys| && !(key < nodes[l].keys[i])
          invariant 0 <= i <= |nodes[l].keys| && forall j :: 0 <= j < i ==> nodes[l].keys[j] <= key
        {
          i := i + 1;
        }
        ChildIndexUnique(nodes[l].keys, key, i);
        l := nodes[l].kids[i];
      }
    }

    /** index_read; the program stops on a key that is not there. */
    method Read(key: nat) returns (r: Option<seq<Item>>)
      requires Valid() && key < KEY_END
      ensures r == if key in content then Some(content[key]) else None
    {
      var l := FindLeaf(key);
      assert NodeOK(T(), NoGap, l);
      LookupExact(T(), content, key);
      var i := LeafHasKey(nodes[l].keys, key);
      if i < 0 {
        return None;
      }
      assert content[nodes[l].keys[i]] == nodes[l].items[i];
      r := Some(nodes[l].items[i]);
    }

    /** insert_into_leaf, when the key is there: the item becomes the head of its chain. */
    method Prepend(l: nat, i: nat, item: Item)
      requires Valid() && l < |nodes| && nodes[l].isLeaf && i < |nodes[l].keys| && i < |nodes[l].items|
      modifies this`nodes, this`content
      ensures Valid()
      ensures content == old(content[nodes[l].keys[i] := [item] + content[nodes[l].keys[i]]])
      ensures SameBut(old(nodes), nodes, {l})
    {
      assert NodeOK(T(), NoGap, l);
      ghost var n := nodes[l].(items := nodes[l].items[i := [item] + nodes[l].items[i]]);
      PrependGains(nodes[l], i, item);
      GainsHolds(T(), l, n, nodes[l].keys[i], [item] + nodes[l].items[i], content);
      LeafChanged(T(), l, n);
      assert FillOK(T(), l);
      PutFilled(T(), l, n);
      content := content[nodes[l].keys[i] := [item] + nodes[l].items[i]];
      nodes := nodes[l := nodes[l].(items := nodes[l].items[i := [item] + nodes[l].items[i]])];
    }

    /** insert_into_leaf, when the key is new and there is room. */
    method InsertIntoLeaf(l: nat, key: nat, item: Item)
      requires Valid() && l < |nodes| && nodes[l].isLeaf && key !in nodes[l].keys && Covers(fen[l], key)
      requires |nodes[l].keys| < ORDER - 1
      modifies this`nodes, this`content
      ensures Valid() && content == old(content)[key := [item]]
      ensures SameBut(old(nodes), nodes, {l})
    {
      assert NodeOK(T(), NoGap, l);
      var i := Place(nodes[l].keys, key);
      LeafGains(T(), l, i, key, item, content);
      var keys := ShiftIn(nodes[l].keys, i, key);
      var items := ShiftIn(nodes[l].items, i, [item]);
      PutFilled(T(), l, nodes[l].(keys := keys, items := items));
      nodes := nodes[l := nodes[l].(keys := keys, items := items)];
      content := content[key := [item]];
    }

    /** split_lf_insert, up to the call of insert_into_parent. */
    method SplitLeaf(l: nat, key: nat, item: Item) returns (newKey: nat, right: nat)
      requires Valid() && l < |nodes| && nodes[l].isLeaf && key !in nodes[l].keys && Covers(fen[l], key)
      requires |nodes[l].keys| == ORDER - 1
      modifies this`nodes, this`fen, this`content
      ensures Inv(T(), Gap(l, newKey, right)) && GapFilled(T(), Gap(l, newKey, right))
      ensures Holds(nodes, content) && content == old(content)[key := [item]]
      ensures SameBut(old(nodes), nodes, {l}) && SameAbove(old(T()), T(), 0)
      ensures fen[l].level == 0 && nodes[l].parent == old(nodes[l].parent) && right == old(|nodes|)
    {
      assert NodeOK(T(), NoGap, l);
      var i := Place(nodes[l].keys, key);
      SplitLeafKeeps(T(), l, i, key, item, content);
      ghost var u := CutLeaf(LeafWith(T(), l, i, key, item), l, 8);
      var keys := CopyAround(nodes[l].keys, i, key);
      var items := CopyAround(nodes[l].items, i, [item]);
      newKey, right := CutLeafNodes(l, keys, items);
      CutLeafIs(old(T()), l, i, key, item);
      fen := u.fen;
      content := content[key := [item]];
    }

    /** The leaf keeps the lower half of the keys, a new leaf behind it gets the others. */
    method CutLeafNodes(l: nat, keys: seq<nat>, items: seq<seq<Item>>) returns (newKey: nat, right: nat)
      requires l < |nodes| && |keys| == |items| == ORDER
      modifies this`nodes
      ensures newKey == keys[8] && right == old(|nodes|)
      ensures nodes == old(nodes[l := nodes[l].(keys := keys[..8], items := items[..8], next := |nodes|)])
                       + [Node(true, keys[8..], items[8..], [], old(nodes[l].parent), old(nodes[l].next))]
    {
      var split := Cut(ORDER - 1);
      newKey, right := keys[split], |nodes|;
      var newLeaf := Node(true, keys[split..], items[split..], [], nodes[l].parent, nodes[l].next);
      nodes := nodes[l := nodes[l].(keys := keys[..split], items := items[..split], next := right)] + [newLeaf];
    }

    /** insert_into_parent: the separator of a cut goes up until there is room. */
    method InsertIntoParent(left: nat, key: nat, right: nat)
      requires Inv(T(), Gap(left, key, right)) && GapFilled(T(), Gap(left, key, right))
      modifies this`nodes, this`fen, this`root
      ensures Inv(T(), NoGap) && Filled(T()) && SameLeaves(old(nodes), nodes)
      ensures SameBut(old(nodes), nodes, TouchedAbove(old(T()), Gap(left, key, right), left))
      decreases fen[root].level - fen[left].level, 1
    {
      ghost var g := Gap(left, key, right);
      if nodes[left].parent == NONE {
        ParentIsNone(T(), g);
        InsertIntoNewRoot(left, key, right);
        return;
      }
      ParentIsNone(T(), g);
      ParentUp(T(), g, left);
      var parent := nodes[left].parent;
      GapKeyIsNew(T(), g);
      var i := Place(nodes[parent].keys, key);
      assert FillOK(T(), parent);
      if |nodes[parent].keys| < ORDER - 1 {
        AttachRoom(T(), g, i);
        GapPlace(T(), g, i);
        ghost var u := Attach(T(), g, i);
        var keys := ShiftIn(nodes[parent].keys, i, key);
        var kids := ShiftIn(nodes[parent].kids, i + 1, right);
        nodes := nodes[parent := nodes[parent].(keys := keys, kids := kids)];
      } else {
        SplitInnerInsert(parent, i, left, key, right);
      }
    }

    /** insert_into_new_root */
    method InsertIntoNewRoot(left: nat, key: nat, right: nat)
      requires Inv(T(), Gap(left, key, right)) && GapFilled(T(), Gap(left, key, right)) && left == root
      modifies this`nodes, this`fen, this`root
      ensures Inv(T(), NoGap) && Filled(T()) && SameLeaves(old(nodes), nodes) && SameBut(old(nodes), nodes, {})
    {
      ghost var g, u := Gap(left, key, right), Raise(T(), Gap(left, key, right));
      RaiseKeeps(T(), g);
      RaiseFilled(T(), g);
      var newRoot := |nodes|;
      nodes := nodes + [Node(false, [key], [], [left, right], NONE, NONE)];
      nodes := nodes[left := nodes[left].(parent := newRoot)];
      nodes := nodes[right := nodes[right].(parent := newRoot)];
      nodes := nodes[left := nodes[left].(next := right)];
      root := newRoot;
      assert nodes == u.nodes;
      fen := u.fen;
    }

    /** The second half of split_nl_insert: `p` keeps the lower keys, a new node gets the others. */
    method CutNode(p: nat, keys: seq<nat>, kids: seq<nat>) returns (kPrime: nat, q: nat)
      requires p < |nodes| && |keys| == ORDER && |kids| == ORDER + 1 && forall k :: k in kids ==> k < |nodes|
      modifies this`nodes
      ensures kPrime == keys[7] && q == old(|nodes|)
      ensures nodes == Reparent(old(nodes[p := nodes[p].(keys := keys[..7], kids := kids[..8], next := |nodes|)]), kids[8..], q)
                       + [Node(false, keys[8..], [], kids[8..], old(nodes[p].parent), old(nodes[p].next))]
    {
      var split := Cut(ORDER);
      q := |nodes|;
      var newNode := Node(false, keys[split..], [], kids[split..], nodes[p].parent, nodes[p].next);
      nodes := nodes[p := nodes[p].(keys := keys[..split - 1], kids := kids[..split], next := q)] + [newNode];
      kPrime := keys[split - 1];
      ghost var before := nodes;
      var i := 0;
      while i < |newNode.kids|
        invariant 0 <= i <= |newNode.kids| && |nodes| == |before|
        invariant forall k :: 0 <= k < |nodes| ==> nodes[k] == if k in newNode.kids[..i] then before[k].(parent := q) else before[k]
      {
        assert newNode.kids[i] == kids[split + i] && newNode.kids[i] in kids;
        nodes := nodes[newNode.kids[i] := nodes[newNode.kids[i]].(parent := q)];
        i := i + 1;
      }
      assert newNode.kids[..i] == newNode.kids;
      assert forall k :: k in newNode.kids ==> k in kids;
      assert before[..q] == old(nodes[p := nodes[p].(keys := keys[..7], kids := kids[..8], next := |nodes|)]);
    }

    /** split_nl_insert, up to the call of insert_into_parent. */
    method SplitNode(p: nat, i: nat, ghost left: nat, key: nat, right: nat) returns (kPrime: nat, q: nat)
      requires Sized(T(), Gap(left, key, right)) && p < |nodes| && p == nodes[left].parent && i <= |nodes[p].keys|
      requires |nodes[p].keys| == ORDER - 1 && |nodes[p].kids| == ORDER && forall k :: k in nodes[p].kids ==> k < |nodes|
      modifies this`nodes, this`fen
      ensures T() == SplitInner(old(T()), Gap(left, key, right), i)
      ensures kPrime == InsertAt(old(nodes[p].keys), i, key)[7] && q == old(|nodes|)
    {
      ghost var u := SplitInner(T(), Gap(left, key, right), i);
      var keys := CopyAround(nodes[p].keys, i, key);
      var kids := CopyAround(nodes[p].kids, i + 1, right);
      ghost var f := nodes[p := nodes[p].(keys := keys, kids := kids)];
      assert f[p := f[p].(keys := keys[..7], kids := kids[..8], next := |nodes|)]
          == nodes[p := nodes[p].(keys := keys[..7], kids := kids[..8], next := |nodes|)];
      assert forall k :: k in kids ==> k == right || k in nodes[p].kids;
      kPrime, q := CutNode(p, keys, kids);
      assert nodes == u.nodes;
      fen := u.fen;
    }

    /** split_nl_insert */
    method SplitInnerInsert(p: nat, i: nat, ghost left: nat, key: nat, right: nat)
      requires Inv(T(), Gap(left, key, right)) && GapFilled(T(), Gap(left, key, right))
      requires left != root && p == nodes[left].parent && p < |nodes| && !nodes[p].isLeaf && IsPlace(nodes[p].keys, key, i)
      requires fen[left].level < fen[p].level <= fen[root].level && |nodes[p].keys| == ORDER - 1
      modifies this`nodes, this`fen, this`root
      ensures Inv(T(), NoGap) && Filled(T()) && SameLeaves(old(nodes), nodes)
      ensures SameBut(old(nodes), nodes, TouchedAbove(old(T()), Gap(left, key, right), left))
      decreases fen[root].level - fen[left].level, 0
    {
      ghost var t, g := T(), Gap(left, key, right);
      SplitInnerKeeps(t, g, i);
      SplitInnerTouched(t, g, i);
      KidsInArena(t, g, p);
      var kPrime, newNode := SplitNode(p, i, left, key, right);
      ghost var u := T();
      InsertIntoParent(p, kPrime, newNode);
      SameTrans(t.nodes, u.nodes, nodes, {p}, TouchedAbove(u, Gap(p, kPrime, newNode), p));
    }

    /** split_lf_insert */
    method SplitLeafInsert(l: nat, key: nat, item: Item)
      requires Valid() && l < |nodes| && nodes[l].isLeaf && key !in nodes[l].keys && Covers(fen[l], key)
      requires |nodes[l].keys| == ORDER - 1
      modifies this`nodes, this`fen, this`root, this`content
      ensures Valid() && content == old(content)[key := [item]]
      ensures SameBut(old(nodes), nodes, Touched(old(T()), NoGap, l))
    {
      ghost var t := T();
      assert NodeOK(t, NoGap, l);
      var newKey, right := SplitLeaf(l, key, item);
      ghost var u, g := T(), Gap(l, newKey, right);
      SplitTouched(t, u, g);
      InsertIntoParent(l, newKey, right);
      SameLeavesHold(u.nodes, nodes, content);
      assert SameBut(t.nodes, nodes, {l} + TouchedAbove(u, g, l));
    }

    /**
     * index_insert: the item becomes the head of the key's chain and every other key keeps its
     * own, through any number of splits. Only the leaf and its ancestors up to the lowest that is
     * not full change what they hold.
     */
    method Insert(key: nat, item: Item)
      requires Valid() && key < KEY_END
      modifies this`nodes, this`fen, this`root, this`content
      ensures Valid()
      ensures content == old(content)[key := [item] + if key in old(content) then old(content)[key] else []]
      ensures SameBut(old(nodes), nodes, Touched(old(T()), NoGap, LeafFor(old(T()), old(root), key)))
    {
      var l := FindLeaf(key);
      assert NodeOK(T(), NoGap, l) && FillOK(T(), l);
      InLeafIff(T(), content, l, key);
      ghost var none: seq<Item> := [];
      assert [item] + none == [item];
      var i := LeafHasKey(nodes[l].keys, key);
      if i >= 0 {
        assert content[nodes[l].keys[i]] == nodes[l].items[i];
        Prepend(l, i, item);
      } else if |nodes[l].keys| < ORDER - 1 {
        InsertIntoLeaf(l, key, item);
      } else {
        SplitLeafInsert(l, key, item);
      }
    }
  }

  // ----- whole runs

  /** The items inserted under `key`, the newest first. */
  function Newest(inserts: seq<(nat, Item)>, key: nat): seq<Item> {
    if inserts == [] then []
    else
      var (k, item), rest := inserts[|inserts| - 1], inserts[..|inserts| - 1];
      (if k == key then [item] else []) + Newest(rest, key)
  }

  /** After any sequence of insertions a read of any key finds exactly what was inserted under it. */
  method InsertsThenRead(inserts: seq<(nat, Item)>, key: nat) returns (r: Option<seq<Item>>)
    requires key < KEY_END && forall i :: 0 <= i < |inserts| ==> inserts[i].0 < KEY_END
    ensures r == if Newest(inserts, key) == [] then None else Some(Newest(inserts, key))
  {
    var ix := new Index();
    var i := 0;
    while i < |inserts|
      invariant 0 <= i <= |inserts| && fresh(ix) && ix.Valid()
      invariant forall k :: k in ix.content ==> ix.content[k] == Newest(inserts[..i], k) != []
      invariant forall k :: k !in ix.content ==> Newest(inserts[..i], k) == []
    {
      assert inserts[..i + 1][..i] == inserts[..i];
      ix.Insert(inserts[i].0, inserts[i].1);
      i := i + 1;
    }
    assert inserts[..i] == inserts;
    r := ix.Read(key);
  }

  /** A key is in the multimap exactly when it is in the leaf that covers it. */
  lemma InLeafIff(t: Tree, m: map<nat, seq<Item>>, l: nat, key: nat)
    requires Inv(t, NoGap) && Holds(t.nodes, m) && l < |t.nodes| && t.nodes[l].isLeaf && Covers(t.fen[l], key)
    ensures key in m <==> key in t.nodes[l].keys
  {
    assert NodeOK(t, NoGap, l);
    if key in m {
      assert Located(t.nodes, key);
      var n :| 0 <= n < |t.nodes| && t.nodes[n].isLeaf && key in t.nodes[n].keys;
      OnlyHere(t, l, n, key);
    }
    if key in t.nodes[l].keys {
      var i :| 0 <= i < |t.nodes[l].keys| && t.nodes[l].keys[i] == key;
      assert t.nodes[l].keys[i] in m;
    }
  }

  /** The cut leaf and what its separator touches are what the full leaf touches. */
  lemma SplitTouched(t: Tree, u: Tree, g: Gap)
    requires Inv(t, NoGap) && Inv(u, g) && g.Gap? && SameAbove(t, u, 0) && g.left < |t.nodes| <= g.right
    requires |t.nodes[g.left].keys| == ORDER - 1 && t.fen[g.left].level == 0 && u.nodes[g.left].parent == t.nodes[g.left].parent
    ensures Touched(t, NoGap, g.left) == {g.left} + TouchedAbove(u, g, g.left)
  {
    if g.left != t.root {
      ParentUp(t, NoGap, g.left);
      ParentUp(u, g, g.left);
      TouchedSame(t, NoGap, u, g, 0, t.nodes[g.left].parent);
    }
  }

  /** A gap's left node is the root exactly when it has no parent. */
  lemma ParentIsNone(t: Tree, g: Gap)
    requires Inv(t, g) && g.Gap?
    ensures t.nodes[g.left].parent == NONE <==> g.left == t.root
  {
    assert NodeOK(t, g, g.left);
  }

  lemma GapKeyIsNew(t: Tree, g: Gap)
    requires Inv(t, g) && g.Gap? && g.left != t.root && 0 <= t.nodes[g.left].parent < |t.nodes|
    ensures g.key !in t.nodes[t.nodes[g.left].parent].keys && Ascending(t.nodes[t.nodes[g.left].parent].keys)
  {
    assert NodeOK(t, g, g.left);
    var p := t.nodes[g.left].parent;
    assert NodeOK(t, g, p);
    var j :| 0 <= j < |t.nodes[p].kids| && t.nodes[p].kids[j] == g.left;
    assert KidOK(t, g, p, j);
  }

  lemma AttachRoom(t: Tree, g: Gap, i: nat)
    requires Inv(t, g) && g.Gap? && GapFilled(t, g) && g.left != t.root
    requires 0 <= t.nodes[g.left].parent < |t.nodes| && IsPlace(t.nodes[t.nodes[g.left].parent].keys, g.key, i)
    ensures var p := t.nodes[g.left].parent;
            var n := t.nodes[p];
            && !n.isLeaf && |n.kids| == |n.keys| + 1
            && var u := Attach(t, g, i);
            && Inv(u, NoGap) && FilledBut(u, p) && SameLeaves(t.nodes, u.nodes) && SameBut(t.nodes, u.nodes, {p})
            && (|n.keys| < ORDER - 1 ==> Filled(u))
  {
    AttachKeeps(t, g, i);
    var p := t.nodes[g.left].parent;
    PutFilled(t, p, Attach(t, g, i).nodes[p]);
  }

  function SplitInner(t: Tree, g: Gap, i: nat): Tree
    requires g.Gap? && g.left < |t.nodes| == |t.fen| && 0 <= t.nodes[g.left].parent < |t.nodes|
    requires var n := t.nodes[t.nodes[g.left].parent]; i <= |n.keys| == ORDER - 1 && |n.kids| == ORDER
  {
    CutInner(Attach(t, g, i), t.nodes[g.left].parent, 7)
  }

  lemma SplitInnerKeeps(t: Tree, g: Gap, i: nat)
    requires Inv(t, g) && g.Gap? && GapFilled(t, g) && g.left != t.root
    requires 0 <= t.nodes[g.left].parent < |t.nodes| && IsPlace(t.nodes[t.nodes[g.left].parent].keys, g.key, i)
    requires |t.nodes[t.nodes[g.left].parent].keys| == ORDER - 1
    ensures |t.nodes[t.nodes[g.left].parent].kids| == ORDER
    ensures var p, u := t.nodes[g.left].parent, SplitInner(t, g, i);
            var h := Gap(p, InsertAt(t.nodes[p].keys, i, g.key)[7], |t.nodes|);
            && Inv(u, h) && GapFilled(u, h)
            && SameLeaves(t.nodes, u.nodes) && SameBut(t.nodes, u.nodes, {p}) && SameAbove(t, u, t.fen[p].level)
            && u.nodes[p].parent == t.nodes[p].parent
  {
    AttachRoom(t, g, i);
    var p, f := t.nodes[g.left].parent, Attach(t, g, i);
    CutInnerKeeps(f, p, 7);
    NotOwnKid(f, p, p);
    CutInnerFilled(f, p);
    CutInnerFrame(f, p);
    assert SameBut(t.nodes, f.nodes, {p}) && SameLeaves(t.nodes, f.nodes);
  }

  /** What the cut of `p` leaves as it was. */
  lemma CutInnerFrame(f: Tree, p: nat)
    requires Inv(f, NoGap) && p < |f.nodes| && !f.nodes[p].isLeaf && 7 < |f.nodes[p].keys| < |f.nodes[p].kids|
    ensures var u := CutInner(f, p, 7);
            && SameLeaves(f.nodes, u.nodes) && SameBut(f.nodes, u.nodes, {p}) && u.nodes[p].parent == f.nodes[p].parent
            && |u.fen| == |u.nodes| == |f.nodes| + 1 && SameAbove(f, u, f.fen[p].level)
  {
    var u := CutInner(f, p, 7);
    forall k | 0 <= k < |f.nodes|
      ensures k != p ==> u.nodes[k] == f.nodes[k].(parent := u.nodes[k].parent)
      ensures k == p ==> u.nodes[k] == f.nodes[k].(keys := u.nodes[k].keys, kids := u.nodes[k].kids, next := u.nodes[k].next)
      ensures f.fen[p].level < f.fen[k].level ==> u.nodes[k].parent == f.nodes[k].parent
    {
      CutInnerNodes(f, p, 7, k);
      if f.fen[p].level <= f.fen[k].level {
        NotOwnKid(f, p, k);
      }
    }
  }

  /** What the cut of the parent touches, and what its own separator will. */
  lemma SplitInnerTouched(t: Tree, g: Gap, i: nat)
    requires Inv(t, g) && g.Gap? && GapFilled(t, g) && g.left != t.root
    requires 0 <= t.nodes[g.left].parent < |t.nodes| && IsPlace(t.nodes[t.nodes[g.left].parent].keys, g.key, i)
    requires |t.nodes[t.nodes[g.left].parent].keys| == ORDER - 1 && |t.nodes[t.nodes[g.left].parent].kids| == ORDER
    ensures var p, u := t.nodes[g.left].parent, SplitInner(t, g, i);
            var h := Gap(p, InsertAt(t.nodes[p].keys, i, g.key)[7], |t.nodes|);
            Inv(u, h) && TouchedAbove(t, g, g.left) == {p} + TouchedAbove(u, h, p)
  {
    SplitInnerKeeps(t, g, i);
    var p, u := t.nodes[g.left].parent, SplitInner(t, g, i);
    var h := Gap(p, InsertAt(t.nodes[p].keys, i, g.key)[7], |t.nodes|);
    ParentUp(t, g, g.left);
    if p != t.root {
      ParentUp(t, g, p);
      ParentUp(u, h, p);
      assert NodeOK(u, h, p);
      TouchedSame(t, g, u, h, t.fen[p].level, t.nodes[p].parent);
    }
  }

  lemma SameTrans(a: seq<Node>, b: seq<Node>, c: seq<Node>, s: set<nat>, r: set<nat>)
    requires SameLeaves(a, b) && SameLeaves(b, c) && SameBut(a, b, s) && SameBut(b, c, r)
    ensures SameLeaves(a, c) && SameBut(a, c, s + r)
  {
    assert forall n :: 0 <= n < |a| ==> b[n].isLeaf == c[n].isLeaf;
    assert forall n :: |a| <= n < |b| ==> !b[n].isLeaf;
  }

  lemma KidsInArena(t: Tree, g: Gap, p: nat)
    requires Inv(t, g) && p < |t.nodes| && !t.nodes[p].isLeaf
    ensures forall k :: k in t.nodes[p].kids ==> k < |t.nodes|
  {
    assert NodeOK(t, g, p);
    forall k | k in t.nodes[p].kids
      ensures k < |t.nodes|
    {
      var j :| 0 <= j < |t.nodes[p].kids| && t.nodes[p].kids[j] == k;
      assert KidOK(t, g, p, j);
    }
  }

  lemma NotOwnKid(t: Tree, p: nat, k: nat)
    requires Inv(t, NoGap) && p < |t.nodes| && k < |t.nodes| && !t.nodes[p].isLeaf && t.fen[p].level <= t.fen[k].level
    ensures k !in t.nodes[p].kids
  {
    assert NodeOK(t, NoGap, p);
    forall j | 0 <= j < |t.nodes[p].kids|
      ensures t.nodes[p].kids[j] != k
    {
      assert KidOK(t, NoGap, p, j);
    }
  }

  function LeafWith(t: Tree, l: nat, i: nat, key: nat, item: Item): Tree
    requires l < |t.nodes| && i <= |t.nodes[l].keys| == |t.nodes[l].items|
  {
    PutNode(t, l, t.nodes[l].(keys := InsertAt(t.nodes[l].keys, i, key), items := InsertAt(t.nodes[l].items, i, [item])))
  }

  /** A new key at its place in the leaf that covers it. */
  lemma LeafGains(t: Tree, l: nat, i: nat, key: nat, item: Item, m: map<nat, seq<Item>>)
    requires Inv(t, NoGap) && Holds(t.nodes, m) && l < |t.nodes| && t.nodes[l].isLeaf && Covers(t.fen[l], key)
    requires key !in t.nodes[l].keys && IsPlace(t.nodes[l].keys, key, i) && |t.nodes[l].keys| == |t.nodes[l].items|
    ensures var u := LeafWith(t, l, i, key, item); Inv(u, NoGap) && Holds(u.nodes, m[key := [item]])
  {
    var n := LeafWith(t, l, i, key, item).nodes[l];
    assert NodeOK(t, NoGap, l);
    InsertAscending(t.nodes[l].keys, key, i);
    LeafChanged(t, l, n);
    InsertGains(t.nodes[l], i, key, item);
    GainsHolds(t, l, n, key, [item], m);
  }

  lemma CutLeafIs(t: Tree, l: nat, i: nat, key: nat, item: Item)
    requires |t.fen| == |t.nodes| && l < |t.nodes| && i <= |t.nodes[l].keys| == |t.nodes[l].items| == ORDER - 1
    ensures var n := t.nodes[l];
            var keys, items := InsertAt(n.keys, i, key), InsertAt(n.items, i, [item]);
            CutLeaf(LeafWith(t, l, i, key, item), l, 8).nodes ==
            t.nodes[l := n.(keys := keys[..8], items := items[..8], next := |t.nodes|)]
            + [Node(true, keys[8..], items[8..], [], n.parent, n.next)]
  {
  }

  /** A full leaf that takes a new key and is cut in two. */
  lemma SplitLeafKeeps(t: Tree, l: nat, i: nat, key: nat, item: Item, m: map<nat, seq<Item>>)
    requires Inv(t, NoGap) && Filled(t) && Holds(t.nodes, m) && l < |t.nodes| && t.nodes[l].isLeaf && Covers(t.fen[l], key)
    requires key !in t.nodes[l].keys && IsPlace(t.nodes[l].keys, key, i) && |t.nodes[l].keys| == |t.nodes[l].items| == ORDER - 1
    ensures var f := LeafWith(t, l, i, key, item);
            var u, g := CutLeaf(f, l, 8), Gap(l, f.nodes[l].keys[8], |t.nodes|);
            && Inv(u, g) && GapFilled(u, g) && Holds(u.nodes, m[key := [item]])
            && SameBut(t.nodes, u.nodes, {l}) && SameAbove(t, u, 0)
            && u.fen[l].level == 0 && u.nodes[l].parent == t.nodes[l].parent
  {
    var f := LeafWith(t, l, i, key, item);
    LeafGains(t, l, i, key, item, m);
    PutFilled(t, l, f.nodes[l]);
    CutLeafKeeps(f, l, 8);
    CutLeafHolds(f, l, 8, m[key := [item]]);
    CutLeafFilled(f, l);
    assert NodeOK(t, NoGap, l);
  }

  lemma ChildIndexUnique(keys: seq<nat>, key: nat, i: nat)
    requires i <= |keys| && (forall j :: 0 <= j < i ==> keys[j] <= key) && (i < |keys| ==> key < keys[i])
    ensures i == ChildIndex(keys, key)
  {
  }
}
