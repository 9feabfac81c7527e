// The `TreeVariant` facade of src/tree/mod.rs: one read-only query surface
// over the in-memory arena and the streaming index.

module Facade {
  import opened Wrappers
  import opened Node
  import Arena
  import ST = Streaming
  import opened LdifRecords
  import LdifTree
  import LdifStream
  import LdifCompare

  datatype TreeVariant = InMemory(tree: Arena.Tree) | Streaming(stree: ST.StreamingTree)

  /** The objects a query may read: the arena of an in-memory variant (the
      streaming tree's index is immutable and its queries read no state). */
  function Frame(v: TreeVariant): set<object> {
    if v.InMemory? then {v.tree} else {}
  }

  /** The objects `get_node` may change: the cache of a streaming variant. */
  function CacheFrame(v: TreeVariant): set<object> {
    if v.Streaming? then {v.stree} else {}
  }

  /** `root_id`: the wrapped tree's root id. */
  function RootId(v: TreeVariant): (r: nat)
    reads Frame(v)
    ensures v.InMemory? ==> r == v.tree.RootId()
    ensures v.Streaming? ==> r == v.stree.RootId()
  {
    match v
    case InMemory(t) => t.RootId()
    case Streaming(s) => s.RootId()
  }

  /** `get_children`: the wrapped tree's answer, so empty for an unknown id
      in both variants. */
  function GetChildren(v: TreeVariant, id: nat): (r: seq<nat>)
    reads Frame(v)
    ensures v.InMemory? ==> r == v.tree.GetChildren(id)
    ensures v.Streaming? ==> r == v.stree.GetChildren(id)
    ensures id >= NodeCount(v) ==> r == []
  {
    match v
    case InMemory(t) => t.GetChildren(id)
    case Streaming(s) => s.GetChildren(id)
  }

  /** `node_count`. */
  function NodeCount(v: TreeVariant): (n: nat)
    reads Frame(v)
    ensures v.InMemory? ==> n == v.tree.NodeCount() == |v.tree.nodes|
    ensures v.Streaming? ==> n == v.stree.NodeCount() == |v.stree.index|
  {
    match v
    case InMemory(t) => t.NodeCount()
    case Streaming(s) => s.NodeCount()
  }

  /** `get_parent`: the wrapped tree's answer, so none for an unknown id in
      both variants. */
  function GetParent(v: TreeVariant, id: nat): (r: Option<nat>)
    reads Frame(v)
    ensures v.InMemory? ==> r == v.tree.GetParent(id)
    ensures v.Streaming? ==> r == v.stree.GetParent(id)
    ensures id >= NodeCount(v) ==> r == None
  {
    match v
    case InMemory(t) => t.GetParent(id)
    case Streaming(s) => s.GetParent(id)
  }

  /** `get_node`: a copy of the arena node, or the streaming tree's
      (possibly cached) reconstruction; `ioOk` says whether a disk read the
      streaming tree needs would succeed and is ignored in memory. */
  method GetNode(v: TreeVariant, id: nat, ioOk: bool) returns (r: Option<TreeNode>)
    requires v.Streaming? ==> v.stree.Valid()
    modifies CacheFrame(v)
    ensures v.InMemory? ==> r == v.tree.GetNode(id)
    ensures v.Streaming? ==> v.stree.Valid()
    ensures v.Streaming? ==> (r.Some? <==> ST.Find(old(v.stree.cache), id).Some? || (id < |v.stree.index| && ioOk))
    ensures v.Streaming? && r.Some? ==> r == ST.Reconstruct(v.stree.index, id)
    ensures v.Streaming? && r.None? ==> v.stree.cache == old(v.stree.cache)
  {
    match v
    case InMemory(t) =>
      r := t.GetNode(id);
    case Streaming(s) =>
      r := s.GetNode(id, ioOk);
  }

  /** The variant `main` would wrap around the records `rs`: the arena
      `build_tree` makes of them, or the index `build_ldif_index` makes. */
  ghost predicate BuiltFrom(v: TreeVariant, rs: seq<Record>)
    reads Frame(v)
  {
    match v
    case InMemory(t) => t.nodes == LdifTree.Build(rs)
    case Streaming(s) => s.index == LdifStream.IndexOf(rs)
  }

  /** Built from the same records, the two variants have the same node
      count and give the same children and the same parent for every id. */
  lemma VariantsAgree(rs: seq<Record>, t: Arena.Tree, s: ST.StreamingTree, id: nat)
    requires BuiltFrom(InMemory(t), rs) && BuiltFrom(Streaming(s), rs)
    ensures NodeCount(InMemory(t)) == NodeCount(Streaming(s))
    ensures GetChildren(InMemory(t), id) == GetChildren(Streaming(s), id)
    ensures GetParent(InMemory(t), id) == GetParent(Streaming(s), id)
  {
    LdifCompare.SameRecordsSameShape(rs);
    if id < |t.nodes| {
      assert LdifCompare.MirrorsNode(t.nodes[id], s.index[id]);
    }
  }

  /** Built from the same records, `get_node` agrees on the node's type,
      attributes and children, and on its caption except for entries (whose
      streaming label may be stripped of a parent DN that was never
      registered); but the streaming copy never carries its parent link,
      which only `get_parent` gives. */
  lemma NodesAgree(rs: seq<Record>, t: Arena.Tree, s: ST.StreamingTree, id: nat)
    requires BuiltFrom(InMemory(t), rs) && BuiltFrom(Streaming(s), rs)
    requires id < |t.nodes|
    ensures var n, r := t.GetNode(id), ST.Reconstruct(s.index, id);
      && n.Some? && r.Some?
      && r.value.children == n.value.children
      && r.value.nodeType == n.value.nodeType
      && r.value.attributes == n.value.attributes
      && (n.value.nodeType != LdifTree.EntryType ==> r.value.caption == n.value.caption)
      && r.value.parentId == None && GetParent(Streaming(s), id) == n.value.parentId
  {
    LdifCompare.SameRecordsSameShape(rs);
    var n, e := t.nodes[id], s.index[id];
    assert LdifCompare.MirrorsNode(n, e);
    if e.nodeType.Entry? {
      assert ST.NodeOf(e.nodeType).nodeType == LdifTree.EntryType;
    }
  }

  /** The queries on an arena that is `Linked`. */
  lemma ArenaQueries(t: Arena.Tree)
    requires Arena.Linked(t.nodes)
    ensures NodeCount(InMemory(t)) >= 1 && GetParent(InMemory(t), 0) == None
    ensures forall id: nat, k :: 0 <= k < |GetChildren(InMemory(t), id)| ==>
      id < GetChildren(InMemory(t), id)[k] < NodeCount(InMemory(t))
      && GetParent(InMemory(t), GetChildren(InMemory(t), id)[k]) == Some(id)
  {
    assert Arena.ChildLinks(t.nodes);
  }

  /** The queries on a streaming tree whose index is `IndexLinked`. */
  lemma IndexQueries(s: ST.StreamingTree)
    requires LdifCompare.IndexLinked(s.index)
    ensures NodeCount(Streaming(s)) >= 1 && GetParent(Streaming(s), 0) == None
    ensures forall id: nat, k :: 0 <= k < |GetChildren(Streaming(s), id)| ==>
      id < GetChildren(Streaming(s), id)[k] < NodeCount(Streaming(s))
      && GetParent(Streaming(s), GetChildren(Streaming(s), id)[k]) == Some(id)
  {
  }

  /** Through either variant built from records, every child listed for a
      node has a larger id and names that node as its parent, and the root
      has no parent. */
  lemma ChildrenNameParent(v: TreeVariant, rs: seq<Record>)
    requires BuiltFrom(v, rs)
    ensures NodeCount(v) >= 1 && GetParent(v, 0) == None
    ensures forall id: nat, k :: 0 <= k < |GetChildren(v, id)| ==>
      id < GetChildren(v, id)[k] < NodeCount(v) && GetParent(v, GetChildren(v, id)[k]) == Some(id)
  {
    match v
    case InMemory(t) =>
      LdifTree.BuildInv(rs);
      assert Arena.Linked(t.nodes);
      ArenaQueries(t);
    case Streaming(s) =>
      LdifCompare.IndexOfLinked(rs);
      IndexQueries(s);
  }
}
