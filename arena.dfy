/** The arena tree (src/tree/mod.rs): nodes live in one growing vector and a
    node's id is its position in it. */
module Arena {
  import opened Wrappers
  import opened Node

  type Nodes = seq<TreeNode>

  /** `get_node_mut(p)` followed by `children.push(c)` when `p` exists; no
      effect at all when it does not. */
  function AppendChildAt(a: Nodes, p: nat, c: nat): (r: Nodes)
    ensures |r| == |a|
    ensures p < |a| ==> r[p] == AddChild(a[p], c)
    ensures forall i :: 0 <= i < |a| && i != p ==> r[i] == a[i]
  {
    if p < |a| then a[p := AddChild(a[p], c)] else a
  }

  /** `children.insert(0, c)` on node `p`, which must exist. */
  function InsertFirstChildAt(a: Nodes, p: nat, c: nat): (r: Nodes)
    requires p < |a|
    ensures |r| == |a| && r[p].children == [c] + a[p].children
    ensures r[p].(children := a[p].children) == a[p]
    ensures forall i :: 0 <= i < |a| && i != p ==> r[i] == a[i]
  {
    a[p := a[p].(children := [c] + a[p].children)]
  }

  /** `add_child_node(p, n)` on the node vector: the node is pushed with its
      parent field set to `p`, and its id is appended to `p`'s children when
      `p` names a node, which may be the new node itself when `p` equals the
      old node count. */
  function AddChildNodeTo(a: Nodes, p: nat, n: TreeNode): (r: Nodes)
    ensures |r| == |a| + 1
    ensures r[|a|].(children := n.children) == n.(parentId := Some(p))
    ensures r[|a|].children == if p == |a| then n.children + [|a|] else n.children
    ensures p < |a| ==> r[p] == AddChild(a[p], |a|)
    ensures forall i :: 0 <= i < |a| && i != p ==> r[i] == a[i]
  {
    AppendChildAt(a + [n.(parentId := Some(p))], p, |a|)
  }

  /** With a parent id that names no node, not even the new one, no existing
      node changes: the parent is recorded on the new node only. */
  lemma AddChildNodeInvalidParent(a: Nodes, p: nat, n: TreeNode)
    requires p > |a|
    ensures AddChildNodeTo(a, p, n) == a + [n.(parentId := Some(p))]
  {
    var r := AddChildNodeTo(a, p, n);
    assert r[..|a|] == a;
  }

  /** The arena invariant of the builders that link parents: ids are
      positions, the root (id 0) has no parent, every child has a larger id
      than its parent and names it as its parent, every parent link is
      matched by a child entry, and children lists are strictly increasing. */
  ghost predicate Linked(a: Nodes) {
    && |a| >= 1
    && a[0].parentId == None
    && ChildLinks(a)
    && IncreasingChildren(a)
    && ParentLinks(a)
  }

  /** Every child has a larger id than its parent and names it as its parent. */
  ghost predicate ChildLinks(a: Nodes) {
    forall i, k :: 0 <= i < |a| && 0 <= k < |a[i].children| ==>
      var c := a[i].children[k]; i < c < |a| && a[c].parentId == Some(i)
  }

  ghost predicate IncreasingChildren(a: Nodes) {
    forall i, k, l :: 0 <= i < |a| && 0 <= k < l < |a[i].children| ==>
      a[i].children[k] < a[i].children[l]
  }

  /** Every parent link is matched by a child entry of an earlier node. */
  ghost predicate ParentLinks(a: Nodes) {
    forall c :: 0 <= c < |a| && a[c].parentId.Some? ==>
      a[c].parentId.value < c && c in a[a[c].parentId.value].children
  }

  /** Adding a childless node under an existing node keeps the arena linked. */
  lemma AddChildNodeKeepsLinked(a: Nodes, p: nat, n: TreeNode)
    requires Linked(a) && p < |a| && n.children == []
    ensures Linked(AddChildNodeTo(a, p, n))
  {
    ChildLinksKept(a, p, n);
    IncreasingKept(a, p, n);
    ParentLinksKept(a, p, n);
  }

  lemma ChildLinksKept(a: Nodes, p: nat, n: TreeNode)
    requires ChildLinks(a) && p < |a| && n.children == []
    ensures ChildLinks(AddChildNodeTo(a, p, n))
  {
    var r := AddChildNodeTo(a, p, n);
    forall i, k | 0 <= i < |r| && 0 <= k < |r[i].children|
      ensures var c := r[i].children[k]; i < c < |r| && r[c].parentId == Some(i)
    {
      if i == p && k == |a[p].children| {
        assert r[i].children[k] == |a|;
      } else {
        assert i < |a| && k < |a[i].children|;
        var c := a[i].children[k];
        assert r[i].children[k] == c && c < |a| && r[c].parentId == a[c].parentId;
      }
    }
  }

  lemma IncreasingKept(a: Nodes, p: nat, n: TreeNode)
    requires ChildLinks(a) && IncreasingChildren(a) && p < |a| && n.children == []
    ensures IncreasingChildren(AddChildNodeTo(a, p, n))
  {
    var r := AddChildNodeTo(a, p, n);
    forall i, k, l | 0 <= i < |r| && 0 <= k < l < |r[i].children|
      ensures r[i].children[k] < r[i].children[l]
    {
      assert i < |a|;
      if i == p && l == |a[p].children| {
        assert r[i].children[k] == a[p].children[k] < |a|;
      } else {
        assert r[i].children[k] == a[i].children[k] && r[i].children[l] == a[i].children[l];
      }
    }
  }

  lemma ParentLinksKept(a: Nodes, p: nat, n: TreeNode)
    requires ParentLinks(a) && p < |a| && n.children == []
    ensures ParentLinks(AddChildNodeTo(a, p, n))
  {
    var r := AddChildNodeTo(a, p, n);
    forall c | 0 <= c < |r| && r[c].parentId.Some?
      ensures r[c].parentId.value < c && c in r[r[c].parentId.value].children
    {
      if c < |a| {
        var q := a[c].parentId.value;
        assert r[c].parentId == a[c].parentId && q < c;
        var k :| 0 <= k < |a[q].children| && a[q].children[k] == c;
        assert r[q].children[k] == c;
      } else {
        assert r[p].children[|a[p].children|] == c;
      }
    }
  }

  /** `n` consecutive ids starting at `lo`. */
  function Ids(lo: nat, n: nat): (r: seq<nat>)
    ensures |r| == n && forall k :: 0 <= k < n ==> r[k] == lo + k
  {
    if n == 0 then [] else Ids(lo, n - 1) + [lo + n - 1]
  }

  lemma IdsSnoc(lo: nat, n: nat)
    ensures Ids(lo, n + 1) == Ids(lo, n) + [lo + n]
  {
  }

  /** Repeated `add_child_node(p, ·)` over a list of nodes. */
  function AddChildrenTo(a: Nodes, p: nat, ns: seq<TreeNode>): (r: Nodes)
    ensures |r| == |a| + |ns|
  {
    if ns == [] then a else AddChildNodeTo(AddChildrenTo(a, p, ns[..|ns| - 1]), p, ns[|ns| - 1])
  }

  /** The children of a node are listed exactly in the order they were added,
      after the ones it already had, and the rest of the arena is untouched. */
  lemma {:induction false} AddChildrenOrder(a: Nodes, p: nat, ns: seq<TreeNode>)
    requires p < |a|
    ensures |AddChildrenTo(a, p, ns)| == |a| + |ns|
    ensures AddChildrenTo(a, p, ns)[p].children == a[p].children + Ids(|a|, |ns|)
    ensures forall i :: 0 <= i < |a| && i != p ==> AddChildrenTo(a, p, ns)[i] == a[i]
    ensures forall k :: 0 <= k < |ns| ==> AddChildrenTo(a, p, ns)[|a| + k] == ns[k].(parentId := Some(p))
  {
    AddChildrenList(a, p, ns);
    AddChildrenKeep(a, p, ns);
    AddChildrenNew(a, p, ns);
  }

  lemma {:induction false} AddChildrenList(a: Nodes, p: nat, ns: seq<TreeNode>)
    requires p < |a|
    ensures AddChildrenTo(a, p, ns)[p] == a[p].(children := a[p].children + Ids(|a|, |ns|))
  {
    if ns != [] {
      var ms := ns[..|ns| - 1];
      var b := AddChildrenTo(a, p, ms);
      AddChildrenList(a, p, ms);
      var r := AddChildrenTo(a, p, ns);
      var xs, ys := Ids(|a|, |ms|), Ids(|a|, |ns|);
      assert r == AddChildNodeTo(b, p, ns[|ns| - 1]);
      assert r[p] == b[p].(children := b[p].children + [|b|]);
      assert ys == xs + [|b|];
      assert b[p].children + [|b|] == a[p].children + ys;
    }
  }

  lemma {:induction false} AddChildrenKeep(a: Nodes, p: nat, ns: seq<TreeNode>)
    requires p < |a|
    ensures forall i :: 0 <= i < |a| && i != p ==> AddChildrenTo(a, p, ns)[i] == a[i]
  {
    if ns != [] {
      var ms := ns[..|ns| - 1];
      var b := AddChildrenTo(a, p, ms);
      AddChildrenKeep(a, p, ms);
      forall i | 0 <= i < |a| && i != p ensures AddChildrenTo(a, p, ns)[i] == a[i] {
        assert AddChildrenTo(a, p, ns)[i] == b[i];
      }
    }
  }

  lemma {:induction false} AddChildrenNew(a: Nodes, p: nat, ns: seq<TreeNode>)
    requires p < |a|
    ensures forall k :: 0 <= k < |ns| ==> AddChildrenTo(a, p, ns)[|a| + k] == ns[k].(parentId := Some(p))
  {
    if ns != [] {
      var ms, n := ns[..|ns| - 1], ns[|ns| - 1];
      var b := AddChildrenTo(a, p, ms);
      var r := AddChildrenTo(a, p, ns);
      AddChildrenNew(a, p, ms);
      assert r == AddChildNodeTo(b, p, n);
      forall k | 0 <= k < |ns| ensures r[|a| + k] == ns[k].(parentId := Some(p)) {
        if k < |ms| {
          assert r[|a| + k] == b[|a| + k] && ms[k] == ns[k];
        } else {
          assert r[|b|].children == n.children;
        }
      }
    }
  }

  /** Adding childless nodes one by one under an existing node keeps the
      arena linked. */
  lemma {:induction false} AddChildrenKeepsLinked(a: Nodes, p: nat, ns: seq<TreeNode>)
    requires Linked(a) && p < |a|
    requires forall k :: 0 <= k < |ns| ==> ns[k].children == []
    ensures Linked(AddChildrenTo(a, p, ns))
  {
    if ns != [] {
      var ms := ns[..|ns| - 1];
      AddChildrenKeepsLinked(a, p, ms);
      AddChildNodeKeepsLinked(AddChildrenTo(a, p, ms), p, ns[|ns| - 1]);
    }
  }

  /** Every child id is larger than its parent's id and names an existing
      node, so following children always moves forward in the arena. */
  ghost predicate ChildrenFollow(a: Nodes) {
    forall i, k :: 0 <= i < |a| && 0 <= k < |a[i].children| ==> i < a[i].children[k] < |a|
  }

  lemma LinkedChildrenFollow(a: Nodes)
    requires Linked(a)
    ensures ChildrenFollow(a)
  {
  }

  lemma PushKeepsFollow(a: Nodes, n: TreeNode)
    requires ChildrenFollow(a) && n.children == []
    ensures ChildrenFollow(a + [n])
  {
    var b := a + [n];
    forall i, k | 0 <= i < |b| && 0 <= k < |b[i].children| ensures i < b[i].children[k] < |b| {
      assert i < |a|;
      assert b[i] == a[i];
    }
  }

  lemma AppendChildKeepsFollow(a: Nodes, p: nat, c: nat)
    requires ChildrenFollow(a) && p < c < |a|
    ensures ChildrenFollow(AppendChildAt(a, p, c))
  {
    var b := AppendChildAt(a, p, c);
    forall i, k | 0 <= i < |b| && 0 <= k < |b[i].children| ensures i < b[i].children[k] < |b| {
      if i == p && k == |a[p].children| {
      } else {
        assert b[i].children[k] == a[i].children[k];
      }
    }
  }

  lemma InsertFirstKeepsFollow(a: Nodes, p: nat, c: nat)
    requires ChildrenFollow(a) && p < c < |a|
    ensures ChildrenFollow(InsertFirstChildAt(a, p, c))
  {
    var b := InsertFirstChildAt(a, p, c);
    forall i, k | 0 <= i < |b| && 0 <= k < |b[i].children| ensures i < b[i].children[k] < |b| {
      if i == p && k > 0 {
        assert b[i].children[k] == a[i].children[k - 1];
      } else if i != p {
        assert b[i] == a[i];
      }
    }
  }

  lemma {:induction false} AddChildrenKeepFollow(a: Nodes, p: nat, ns: seq<TreeNode>)
    requires ChildrenFollow(a) && p < |a|
    requires forall k :: 0 <= k < |ns| ==> ns[k].children == []
    ensures ChildrenFollow(AddChildrenTo(a, p, ns))
  {
    if ns != [] {
      var ms := ns[..|ns| - 1];
      AddChildrenKeepFollow(a, p, ms);
      AddChildrenOrder(a, p, ms);
      var b := AddChildrenTo(a, p, ms);
      var n := ns[|ns| - 1].(parentId := Some(p));
      PushKeepsFollow(b, n);
      AppendChildKeepsFollow(b + [n], p, |b|);
    }
  }

  /** Every child id names an existing node. */
  ghost predicate ChildrenInRange(a: Nodes) {
    forall i, k :: 0 <= i < |a| && 0 <= k < |a[i].children| ==> a[i].children[k] < |a|
  }

  /** `ChildrenFollow` with room for leaves listed by a node added after
      them: every child id names an existing node, and a child whose id is
      not larger than its parent's has no children of its own. */
  ghost predicate ChildrenFollowOrLeaf(a: Nodes) {
    forall i, k :: 0 <= i < |a| && 0 <= k < |a[i].children| ==>
      a[i].children[k] < |a| && (i < a[i].children[k] || a[a[i].children[k]].children == [])
  }

  /** Children that follow their parents meet the weaker order, and every
      child id names a node. */
  lemma FollowWeakens(a: Nodes)
    requires ChildrenFollow(a)
    ensures ChildrenFollowOrLeaf(a) && ChildrenInRange(a)
  {
  }

  /** The arena of src/tree/mod.rs:35-38. */
  class Tree {
    var nodes: Nodes
    const rootId: nat

    /** `Tree::new(root)`: the root is node 0 and the only node. */
    constructor(root: TreeNode)
      ensures nodes == [root] && rootId == 0
    {
      nodes := [root];
      rootId := 0;
    }

    /** `add_node`: pushes without linking and returns the old node count. */
    method AddNode(n: TreeNode) returns (id: nat)
      modifies this
      ensures id == |old(nodes)| && nodes == old(nodes) + [n]
    {
      id := |nodes|;
      nodes := nodes + [n];
    }

    /** `add_child_node(p, n)`. */
    method AddChildNode(p: nat, n: TreeNode) returns (id: nat)
      modifies this
      ensures id == |old(nodes)| && nodes == AddChildNodeTo(old(nodes), p, n)
    {
      var m := n.(parentId := Some(p));
      id := AddNode(m);
      if p < |nodes| {
        nodes := nodes[p := AddChild(nodes[p], id)];
      }
    }

    /** `get_node_mut(p)` then `add_child(c)`, when `p` exists. */
    method AppendChild(p: nat, c: nat)
      modifies this
      ensures nodes == AppendChildAt(old(nodes), p, c)
    {
      if p < |nodes| {
        nodes := nodes[p := AddChild(nodes[p], c)];
      }
    }

    /** `get_node_mut(p)` then `children.insert(0, c)`. */
    method InsertFirstChild(p: nat, c: nat)
      requires p < |nodes|
      modifies this
      ensures nodes == InsertFirstChildAt(old(nodes), p, c)
    {
      nodes := nodes[p := nodes[p].(children := [c] + nodes[p].children)];
    }

    function GetNode(id: nat): (r: Option<TreeNode>)
      reads this
      ensures r.Some? <==> id < |nodes|
      ensures r.Some? ==> r.value == nodes[id]
    {
      if id < |nodes| then Some(nodes[id]) else None
    }

    function RootId(): nat
      reads this
    {
      rootId
    }

    /** `get_children`: a copy of the children list, empty for an unknown id. */
    function GetChildren(id: nat): (r: seq<nat>)
      reads this
      ensures id < |nodes| ==> r == nodes[id].children
      ensures id >= |nodes| ==> r == []
    {
      if id < |nodes| then nodes[id].children else []
    }

    function NodeCount(): (n: nat)
      reads this
      ensures n == |nodes|
    {
      |nodes|
    }

    /** `get_parent`: the node's own parent field; None for an unknown id. */
    function GetParent(id: nat): (r: Option<nat>)
      reads this
      ensures id < |nodes| ==> r == nodes[id].parentId
      ensures id >= |nodes| ==> r == None
    {
      if id < |nodes| then nodes[id].parentId else None
    }
  }
}
