/** The streaming LDIF tree (src/tree/streaming.rs): an index of node
    descriptors built once, and a tree over it that rebuilds nodes on
    demand and keeps the most recently used ones in a bounded LRU cache. */
module Streaming {
  import opened Wrappers
  import Node

  /** Capacity of the node cache. */
  const StreamingCacheSize: nat := 1000

  /** What an index entry describes; the node is rebuilt from this alone. */
  datatype NodeType =
    | Root
    | Entry(dn: string, rdn: string)
    | VirtualAttributes
    | Attribute(key: string, value: string)

  /** An entry of the index: parent link, child ids and payload. The byte
      offset the source also records is not modelled. */
  datatype IndexEntry = IndexEntry(parentId: Option<nat>, children: seq<nat>, nodeType: NodeType)

  /** `IndexEntry::new`: an entry starts without children. */
  function NewIndexEntry(parentId: Option<nat>, nodeType: NodeType): (e: IndexEntry)
    ensures e.parentId == parentId && e.nodeType == nodeType && e.children == []
  {
    IndexEntry(parentId, [], nodeType)
  }

  /** The entries after `add_child(p, c)`: `c` appended to the children of
      `p` when `p` exists, nothing at all otherwise. */
  function AddChildAt(es: seq<IndexEntry>, p: nat, c: nat): (r: seq<IndexEntry>)
    ensures |r| == |es|
    ensures p < |es| ==> r[p] == es[p].(children := es[p].children + [c])
    ensures forall i :: 0 <= i < |es| && i != p ==> r[i] == es[i]
  {
    if p < |es| then es[p := es[p].(children := es[p].children + [c])] else es
  }

  /** `LdifIndex`: a growing vector of entries addressed by position. */
  class LdifIndex {
    var entries: seq<IndexEntry>
    const rootId: nat

    constructor(rootId: nat)
      ensures entries == [] && this.rootId == rootId
    {
      entries := [];
      this.rootId := rootId;
    }

    /** `add_entry`: the id handed out is the old length; earlier entries
        stay as they were. */
    method AddEntry(entry: IndexEntry) returns (id: nat)
      modifies this
      ensures id == |old(entries)| && entries == old(entries) + [entry]
      ensures |entries| == |old(entries)| + 1 && entries[id] == entry
    {
      id := |entries|;
      entries := entries + [entry];
    }

    /** `get_entry`: present exactly for the ids handed out so far. */
    function GetEntry(id: nat): (r: Option<IndexEntry>)
      reads this
      ensures r.Some? <==> id < |entries|
      ensures r.Some? ==> r.value == entries[id]
    {
      if id < |entries| then Some(entries[id]) else None
    }

    /** `add_child`: silently ignores an unknown parent. */
    method AddChild(p: nat, c: nat)
      modifies this
      ensures entries == AddChildAt(old(entries), p, c)
    {
      if p < |entries| {
        entries := entries[p := entries[p].(children := entries[p].children + [c])];
      }
    }

    function Len(): nat
      reads this
    {
      |entries|
    }

    function IsEmpty(): (r: bool)
      reads this
      ensures r <==> Len() == 0
    {
      |entries| == 0
    }

    function RootId(): nat {
      rootId
    }
  }

  // ---------------------------------------------------------------------
  // Rebuilding a node
  // ---------------------------------------------------------------------

  /** The node a payload stands for, before its children are filled in. */
  function NodeOf(t: NodeType): Node.TreeNode {
    match t
    case Root => Node.NewNode("root", "root")
    case Entry(_, rdn) => Node.NewNode(rdn, "entry")
    case VirtualAttributes => Node.VirtualNode()
    case Attribute(key, value) => Node.ValueLeaf(key, value)
  }

  /** `parse_node_from_lines`: the node is rebuilt from the index entry's
      payload alone and takes its children from the index; it never
      carries a parent link. Absent for an id the index does not have. */
  function Reconstruct(es: seq<IndexEntry>, id: nat): (r: Option<Node.TreeNode>)
    ensures r.Some? <==> id < |es|
    ensures r.Some? ==> r.value.children == es[id].children && r.value.parentId == None
    ensures r.Some? ==> r.value.(children := []) == NodeOf(es[id].nodeType)
  {
    if id < |es| then Some(NodeOf(es[id].nodeType).(children := es[id].children)) else None
  }

  /** The type tests of the rebuilt node follow the payload kind, and only
      an attribute payload produces node attributes. */
  lemma NodeOfKinds(t: NodeType)
    ensures Node.IsAttribute(NodeOf(t)) <==> t.Attribute?
    ensures Node.IsVirtualAttributes(NodeOf(t)) <==> t.VirtualAttributes?
    ensures NodeOf(t).attributes == if t.Attribute? then [Node.Attribute("value", t.value)] else []
    ensures NodeOf(t).caption == match t
      case Root => "root"
      case Entry(_, rdn) => rdn
      case VirtualAttributes => "@attributes"
      case Attribute(key, _) => key
  {
    assert "root" != Node.AttributeType && "root" != Node.VirtualAttributesType by {
      assert "root"[0] != Node.AttributeType[0] && "root"[0] != Node.VirtualAttributesType[0];
    }
    assert "entry" != Node.AttributeType && "entry" != Node.VirtualAttributesType by {
      assert "entry"[0] != Node.AttributeType[0] && "entry"[0] != Node.VirtualAttributesType[0];
    }
    assert Node.AttributeType != Node.VirtualAttributesType by {
      assert Node.AttributeType[0] != Node.VirtualAttributesType[0];
    }
  }

  // ---------------------------------------------------------------------
  // The LRU cache, least recently used slot first
  // ---------------------------------------------------------------------

  datatype Slot = Slot(id: nat, node: Node.TreeNode)

  predicate DistinctIds(c: seq<Slot>) {
    forall i, j :: 0 <= i < j < |c| ==> c[i].id != c[j].id
  }

  /** The position of `id` in the cache, if it is cached. */
  function Find(c: seq<Slot>, id: nat): (r: Option<nat>)
    ensures r.Some? ==> r.value < |c| && c[r.value].id == id
    ensures r.None? <==> forall i :: 0 <= i < |c| ==> c[i].id != id
  {
    if c == [] then None
    else if c[|c| - 1].id == id then Some(|c| - 1)
    else Find(c[..|c| - 1], id)
  }

  /** `LruCache::get` on a hit: the slot becomes the most recent one. */
  function Touch(c: seq<Slot>, i: nat): seq<Slot>
    requires i < |c|
  {
    c[..i] + c[i + 1..] + [c[i]]
  }

  /** `LruCache::put`: a slot with the same id is replaced and becomes the
      most recent; a new id evicts the least recent slot when the cache is
      at capacity. */
  function Put(c: seq<Slot>, cap: nat, s: Slot): seq<Slot> {
    var f := Find(c, s.id);
    if f.Some? then c[..f.value] + c[f.value + 1..] + [s]
    else if |c| >= cap && c != [] then c[1..] + [s]
    else c + [s]
  }

  /** A hit keeps exactly the same slots, moves the touched one to the
      end, keeps the ids distinct and the size unchanged. */
  lemma TouchSpec(c: seq<Slot>, i: nat)
    requires i < |c| && DistinctIds(c)
    ensures var t := Touch(c, i);
      && |t| == |c| && t[|t| - 1] == c[i] && DistinctIds(t)
      && (forall s :: s in t <==> s in c)
  {
    var t := Touch(c, i);
    forall a, b | 0 <= a < b < |t| ensures t[a].id != t[b].id {
      var ia := if a < i then a else a + 1;
      var ib := if b == |t| - 1 then i else if b < i then b else b + 1;
      assert t[a] == c[ia] && t[b] == c[ib] && ia != ib;
    }
    forall s ensures s in t <==> s in c {
      if s in c {
        var k :| 0 <= k < |c| && c[k] == s;
        if k < i { assert t[k] == s; } else if k > i { assert t[k - 1] == s; } else { assert t[|t| - 1] == s; }
      }
    }
  }

  /** A put never lets the cache grow past a positive capacity, keeps the
      ids distinct, makes the new slot the most recent, and every other
      slot it keeps was already cached. */
  lemma PutSpec(c: seq<Slot>, cap: nat, s: Slot)
    requires 1 <= cap && |c| <= cap && DistinctIds(c)
    ensures var r := Put(c, cap, s);
      && |r| <= cap && DistinctIds(r) && r[|r| - 1] == s
      && (forall x :: x in r ==> x == s || (x in c && x.id != s.id))
  {
    var r := Put(c, cap, s);
    var f := Find(c, s.id);
    var base := if f.Some? then c[..f.value] + c[f.value + 1..]
      else if |c| >= cap && c != [] then c[1..] else c;
    assert r == base + [s];
    assert forall x :: x in base ==> x in c && x.id != s.id by {
      forall x | x in base ensures x in c && x.id != s.id {
        var k :| 0 <= k < |base| && base[k] == x;
        if f.Some? {
          if k < f.value { assert base[k] == c[k]; } else { assert base[k] == c[k + 1]; }
        } else if |c| >= cap && c != [] {
          assert base[k] == c[k + 1];
        }
      }
    }
    forall a, b | 0 <= a < b < |r| ensures r[a].id != r[b].id {
      if b < |r| - 1 {
        var ia := if f.Some? then (if a < f.value then a else a + 1) else if |c| >= cap && c != [] then a + 1 else a;
        var ib := if f.Some? then (if b < f.value then b else b + 1) else if |c| >= cap && c != [] then b + 1 else b;
        assert base[a] == c[ia] && base[b] == c[ib] && ia < ib;
      } else {
        assert r[a] in base;
      }
    }
  }

  /** A hit on a present id finds the slot and a put of a new slot makes it
      findable: what is cached under an id is the slot `Find` locates. */
  lemma PutThenFind(c: seq<Slot>, cap: nat, s: Slot)
    requires 1 <= cap && |c| <= cap && DistinctIds(c)
    ensures var r := Put(c, cap, s); Find(r, s.id) == Some(|r| - 1)
  {
    PutSpec(c, cap, s);
  }

  // ---------------------------------------------------------------------
  // The tree over an index
  // ---------------------------------------------------------------------

  /** `StreamingTree`: the index is moved in at construction and never
      changed again; the cache is interior state that `get_node` updates. */
  class StreamingTree {
    const index: seq<IndexEntry>
    const rootId: nat
    var cache: seq<Slot>

    /** The cache stays within its capacity, holds each id once, and every
        cached node is exactly the one the index rebuilds for its id. */
    ghost predicate Valid()
      reads this
    {
      && |cache| <= StreamingCacheSize
      && DistinctIds(cache)
      && forall s :: s in cache ==> Reconstruct(index, s.id) == Some(s.node)
    }

    /** `StreamingTree::new` once the file is open: the index is taken
        over as it is and the cache starts empty. */
    constructor(idx: LdifIndex)
      ensures index == idx.entries && rootId == idx.rootId && cache == []
      ensures Valid()
    {
      index := idx.entries;
      rootId := idx.rootId;
      cache := [];
    }

    function RootId(): nat {
      rootId
    }

    /** `load_node`: no node for an id outside the index or when the seek
        or a read fails (`ioOk` false); otherwise the rebuilt node, the
        lines read being ignored. */
    function LoadNode(id: nat, ioOk: bool): (r: Option<Node.TreeNode>)
      ensures r.Some? <==> id < |index| && ioOk
      ensures r.Some? ==> r == Reconstruct(index, id)
    {
      if id >= |index| then None
      else if !ioOk then None
      else Reconstruct(index, id)
    }

    /** `get_node`: a cached node is returned without I/O and becomes the
        most recent; otherwise the node is loaded and, when that succeeds,
        put in the cache. Either way the answer is what a fresh rebuild
        from the index gives, and a failed load leaves the cache alone. */
    method GetNode(id: nat, ioOk: bool) returns (r: Option<Node.TreeNode>)
      requires Valid()
      modifies this
      ensures Valid()
      ensures r.Some? <==> Find(old(cache), id).Some? || (id < |index| && ioOk)
      ensures r.Some? ==> r == Reconstruct(index, id)
      ensures r.Some? ==> r.value.children == GetChildren(id) && r.value.parentId == None
      ensures Find(old(cache), id).Some? ==> cache == Touch(old(cache), Find(old(cache), id).value)
      ensures Find(old(cache), id).None? && r.Some? ==> cache == Put(old(cache), StreamingCacheSize, Slot(id, r.value))
      ensures r.None? ==> cache == old(cache)
    {
      var f := Find(cache, id);
      if f.Some? {
        var node := cache[f.value].node;
        assert cache[f.value] in cache;
        TouchSpec(cache, f.value);
        cache := Touch(cache, f.value);
        return Some(node);
      }
      var loaded := LoadNode(id, ioOk);
      if loaded.Some? {
        PutSpec(cache, StreamingCacheSize, Slot(id, loaded.value));
        cache := Put(cache, StreamingCacheSize, Slot(id, loaded.value));
        r := loaded;
      } else {
        r := None;
      }
    }

    /** `get_children`: read from the index; empty for an unknown id. */
    function GetChildren(id: nat): (r: seq<nat>)
      ensures id >= |index| ==> r == []
      ensures id < |index| ==> r == index[id].children
    {
      if id < |index| then index[id].children else []
    }

    /** `get_parent`: read from the index; none for an unknown id. */
    function GetParent(id: nat): (r: Option<nat>)
      ensures id >= |index| ==> r == None
      ensures id < |index| ==> r == index[id].parentId
    {
      if id < |index| then index[id].parentId else None
    }

    function NodeCount(): nat {
      |index|
    }
  }

  /** `StreamingTree::new`: fails with an I/O error when the file cannot be
      opened (`opens` false), otherwise a tree over the given index with an
      empty cache. */
  method NewStreamingTree(idx: LdifIndex, opens: bool) returns (r: Result<StreamingTree, XtvError>)
    ensures r.Ok? <==> opens
    ensures r.Err? ==> r.error.Io?
    ensures r.Ok? ==> fresh(r.value) && r.value.Valid() && r.value.cache == []
    ensures r.Ok? ==> r.value.index == idx.entries && r.value.rootId == idx.rootId
  {
    if !opens {
      return Err(Io("Failed to open file"));
    }
    var t := new StreamingTree(idx);
    r := Ok(t);
  }
}
