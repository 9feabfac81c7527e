/** `build_tree` of the in-memory LDIF parser (src/parser/ldif.rs:206-277),
    as functions of the parsed records: the arena it builds, and the map
    from DN to entry id it keeps on the way. */
module LdifTree {
  import opened Wrappers
  import opened Text
  import opened Node
  import opened Arena
  import opened Dn
  import opened LdifRecords

  const EntryType: string := "entry"

  function RootNode(): TreeNode {
    NewNode("root", "root")
  }

  /** The parent of a new entry: the node of its parent DN when that DN was
      registered by an earlier record, the root otherwise. */
  function EntryParent(m: map<string, nat>, dn: string): nat {
    var p := GetParentDn(dn);
    if p.Some? && p.value in m then m[p.value] else 0
  }

  /** The entry's caption: relative to its parent DN only when the entry
      hangs below another entry. */
  function EntryLabel(m: map<string, nat>, dn: string): string {
    ComputeRdn(dn, if EntryParent(m, dn) == 0 then None else GetParentDn(dn))
  }

  /** The nodes one record adds: its entry under `p`, the `@attributes`
      node under the entry, one leaf per item under that. */
  function AddEntry(a: Nodes, p: nat, caption: string, items: seq<Attribute>): Nodes {
    AddChildrenTo(EntryAndVirtual(a, p, caption), |a| + 1, Leaves(items))
  }

  /** The entry under `p` and the `@attributes` node under the entry. */
  function EntryAndVirtual(a: Nodes, p: nat, caption: string): Nodes {
    AddChildNodeTo(AddChildNodeTo(a, p, NewNode(caption, EntryType)), |a|, VirtualNode())
  }

  /** Three nodes per record (entry, `@attributes`, the synthetic `dn`
      leaf) plus one per parsed attribute value. */
  function Weight(rs: seq<Record>): nat {
    if rs == [] then 0 else Weight(rs[..|rs| - 1]) + 3 + |rs[|rs| - 1].attributes|
  }

  /** The DN map after the records `rs`: each record registers its DN at
      the id its entry gets, one past the nodes of the records before it. */
  function MapOf(rs: seq<Record>): map<string, nat> {
    if rs == [] then map[] else MapOf(rs[..|rs| - 1])[rs[|rs| - 1].dn := 1 + Weight(rs[..|rs| - 1])]
  }

  /** The arena after the records `rs`. */
  function Build(rs: seq<Record>): Nodes {
    if rs == [] then [RootNode()]
    else
      var init, r := rs[..|rs| - 1], rs[|rs| - 1];
      AddEntry(Build(init), EntryParent(MapOf(init), r.dn), EntryLabel(MapOf(init), r.dn), AttrItems(r))
  }

  /** The id of the `k`-th record's entry node. */
  function Offset(rs: seq<Record>, k: nat): nat
    requires k <= |rs|
  {
    1 + Weight(rs[..k])
  }

  /** One node per record part: the arena has exactly as many nodes as
      the ids the map hands out assume. */
  lemma {:induction false} BuildSize(rs: seq<Record>)
    ensures |Build(rs)| == 1 + Weight(rs)
  {
    if rs != [] {
      BuildSize(rs[..|rs| - 1]);
      AttrItemsCount(rs[|rs| - 1]);
    }
  }

  // ---------------------------------------------------------------------
  // One record
  // ---------------------------------------------------------------------

  /** What one record adds: its entry as the last child of the chosen
      parent, the `@attributes` node as the entry's only child, the leaves
      as that node's children; nothing else changes. */
  lemma AddEntryShape(a: Nodes, p: nat, caption: string, items: seq<Attribute>)
    requires p < |a|
    ensures var c, e := AddEntry(a, p, caption, items), |a|;
      && c[e] == NewNode(caption, EntryType).(parentId := Some(p), children := [e + 1])
      && c[e + 1] == VirtualNode().(parentId := Some(e), children := Ids(e + 2, |items|))
      && (forall k :: 0 <= k < |items| ==> c[e + 2 + k] == AttrLeaf(items[k]).(parentId := Some(e + 1)))
      && c[p] == AddChild(a[p], e)
      && (forall i :: 0 <= i < e && i != p ==> c[i] == a[i])
  {
    AddEntryOld(a, p, caption, items);
    AddEntryVirtual(a, p, caption, items);
    AddEntryLeaves(a, p, caption, items);
  }

  lemma AddEntryOld(a: Nodes, p: nat, caption: string, items: seq<Attribute>)
    requires p < |a|
    ensures var c, e := AddEntry(a, p, caption, items), |a|;
      && c[e] == NewNode(caption, EntryType).(parentId := Some(p), children := [e + 1])
      && c[p] == AddChild(a[p], e)
      && (forall i :: 0 <= i < e && i != p ==> c[i] == a[i])
  {
    EntryAndVirtualShape(a, p, caption);
    AddChildrenKeep(EntryAndVirtual(a, p, caption), |a| + 1, Leaves(items));
  }

  lemma AddEntryVirtual(a: Nodes, p: nat, caption: string, items: seq<Attribute>)
    requires p < |a|
    ensures AddEntry(a, p, caption, items)[|a| + 1] == VirtualNode().(parentId := Some(|a|), children := Ids(|a| + 2, |items|))
  {
    var n2 := EntryAndVirtual(a, p, caption);
    var ids := Ids(|a| + 2, |items|);
    EntryAndVirtualShape(a, p, caption);
    var v := n2[|a| + 1];
    assert v.children == [];
    AddChildrenList(n2, |a| + 1, Leaves(items));
    assert AddEntry(a, p, caption, items)[|a| + 1] == v.(children := v.children + ids);
    assert v.children + ids == ids;
  }

  lemma AddEntryLeaves(a: Nodes, p: nat, caption: string, items: seq<Attribute>)
    requires p < |a|
    ensures forall k :: 0 <= k < |items| ==>
      AddEntry(a, p, caption, items)[|a| + 2 + k] == AttrLeaf(items[k]).(parentId := Some(|a| + 1))
  {
    var n2, ls := EntryAndVirtual(a, p, caption), Leaves(items);
    EntryAndVirtualShape(a, p, caption);
    AddChildrenNew(n2, |a| + 1, ls);
  }

  lemma EntryAndVirtualShape(a: Nodes, p: nat, caption: string)
    requires p < |a|
    ensures var n, e := EntryAndVirtual(a, p, caption), |a|;
      && |n| == e + 2
      && n[e] == NewNode(caption, EntryType).(parentId := Some(p), children := [e + 1])
      && n[e + 1] == VirtualNode().(parentId := Some(e))
      && n[p] == AddChild(a[p], e)
      && (forall i :: 0 <= i < e && i != p ==> n[i] == a[i])
  {
    var n1 := AddChildNodeTo(a, p, NewNode(caption, EntryType));
    assert n1[|a|] == NewNode(caption, EntryType).(parentId := Some(p));
  }

  lemma AddEntryLinked(a: Nodes, p: nat, caption: string, items: seq<Attribute>)
    requires Linked(a) && p < |a|
    ensures Linked(AddEntry(a, p, caption, items))
  {
    EntryAndVirtualLinked(a, p, caption);
    LeavesLinked(EntryAndVirtual(a, p, caption), |a| + 1, items);
  }

  /** The attribute leaves, added under an existing node, keep the arena
      linked. */
  lemma LeavesLinked(e: Nodes, v: nat, items: seq<Attribute>)
    requires Linked(e) && v < |e|
    ensures Linked(AddChildrenTo(e, v, Leaves(items)))
  {
    var ls := Leaves(items);
    assert forall k :: 0 <= k < |ls| ==> ls[k].children == [];
    AddChildrenKeepsLinked(e, v, ls);
  }

  lemma EntryAndVirtualLinked(a: Nodes, p: nat, caption: string)
    requires Linked(a) && p < |a|
    ensures Linked(EntryAndVirtual(a, p, caption)) && |EntryAndVirtual(a, p, caption)| == |a| + 2
  {
    var n1 := AddChildNodeTo(a, p, NewNode(caption, EntryType));
    AddChildNodeKeepsLinked(a, p, NewNode(caption, EntryType));
    AddChildNodeKeepsLinked(n1, |a|, VirtualNode());
  }

  // ---------------------------------------------------------------------
  // The invariant of the loop over records
  // ---------------------------------------------------------------------

  /** Every registered DN maps to an entry node, never to the root. */
  ghost predicate MapOk(a: Nodes, m: map<string, nat>) {
    forall d :: d in m ==> 0 < m[d] < |a| && a[m[d]].nodeType == EntryType
  }

  ghost predicate Inv(a: Nodes, m: map<string, nat>) {
    Linked(a) && a[0].nodeType == "root" && MapOk(a, m)
  }

  /** The parent chosen for a record is the root or an entry node. */
  lemma EntryParentOk(a: Nodes, m: map<string, nat>, dn: string)
    requires Inv(a, m)
    ensures var p := EntryParent(m, dn);
      p < |a| && (p == 0 || a[p].nodeType == EntryType)
  {
  }

  lemma AddEntryMapOk(a: Nodes, m: map<string, nat>, m': map<string, nat>, p: nat, caption: string, dn: string, items: seq<Attribute>)
    requires MapOk(a, m) && p < |a| && a[0].nodeType == "root"
    requires Registers(m, m', dn, |a|)
    ensures MapOk(AddEntry(a, p, caption, items), m')
    ensures AddEntry(a, p, caption, items)[0].nodeType == "root"
  {
    AddEntryShape(a, p, caption, items);
    var c := AddEntry(a, p, caption, items);
    forall d | d in m'
      ensures 0 < m'[d] < |c| && c[m'[d]].nodeType == EntryType
    {
      if d != dn {
        assert c[m[d]].nodeType == a[m[d]].nodeType;
      }
    }
  }

  /** The map after one more record, key by key. */
  lemma MapOfStep(rs: seq<Record>, d: string)
    requires rs != []
    ensures var init, r := rs[..|rs| - 1], rs[|rs| - 1];
      && (d in MapOf(rs) <==> d == r.dn || d in MapOf(init))
      && (d in MapOf(rs) ==> MapOf(rs)[d] == if d == r.dn then 1 + Weight(init) else MapOf(init)[d])
  {
  }

  /** `m'` is `m` with `dn` bound to `id`. */
  ghost predicate Registers(m: map<string, nat>, m': map<string, nat>, dn: string, id: nat) {
    && (forall d :: d in m' <==> d == dn || d in m)
    && (forall d :: d in m' ==> m'[d] == if d == dn then id else m[d])
  }

  /** The map after one more record, for every DN at once. */
  lemma MapOfStepAll(rs: seq<Record>)
    requires rs != []
    ensures Registers(MapOf(rs[..|rs| - 1]), MapOf(rs), rs[|rs| - 1].dn, 1 + Weight(rs[..|rs| - 1]))
  {
    var init, r := rs[..|rs| - 1], rs[|rs| - 1];
    forall d ensures d in MapOf(rs) <==> d == r.dn || d in MapOf(init) {
      MapOfStep(rs, d);
    }
    forall d | d in MapOf(rs) ensures MapOf(rs)[d] == if d == r.dn then 1 + Weight(init) else MapOf(init)[d] {
      MapOfStep(rs, d);
    }
  }

  /** After every record the arena is linked and the map points at entries. */
  lemma {:induction false} BuildInv(rs: seq<Record>)
    ensures Inv(Build(rs), MapOf(rs))
  {
    if rs != [] {
      var init, r := rs[..|rs| - 1], rs[|rs| - 1];
      BuildInv(init);
      BuildSize(init);
      MapOfStepAll(rs);
      InvStep(Build(init), MapOf(init), MapOf(rs), r.dn, AttrItems(r));
    }
  }

  /** One more record keeps the invariant, whatever the arena and map. */
  lemma InvStep(a: Nodes, m: map<string, nat>, m': map<string, nat>, dn: string, items: seq<Attribute>)
    requires Inv(a, m) && Registers(m, m', dn, |a|)
    ensures Inv(AddEntry(a, EntryParent(m, dn), EntryLabel(m, dn), items), m')
  {
    var p := EntryParent(m, dn);
    EntryParentOk(a, m, dn);
    AddEntryLinked(a, p, EntryLabel(m, dn), items);
    AddEntryMapOk(a, m, m', p, EntryLabel(m, dn), dn, items);
  }

  // ---------------------------------------------------------------------
  // Later records only add
  // ---------------------------------------------------------------------

  /** `a` grows into `c`: ids keep their nodes, a node only gains children
      at the end of its list, every gained child is an entry, and
      `@attributes` and attribute nodes do not change at all. */
  ghost predicate Grows(a: Nodes, c: Nodes) {
    && |a| <= |c|
    && (forall i {:trigger a[i]} :: 0 <= i < |a| ==>
          c[i].(children := a[i].children) == a[i] && a[i].children <= c[i].children)
    && (forall i {:trigger a[i]} :: 0 <= i < |a| && (a[i].nodeType == VirtualAttributesType || a[i].nodeType == AttributeType) ==>
          c[i] == a[i])
    && (forall i, j {:trigger c[i].children[j], a[i]} :: 0 <= i < |a| && |a[i].children| <= j < |c[i].children| ==>
          c[i].children[j] < |c| && c[c[i].children[j]].nodeType == EntryType)
  }

  lemma GrowsRefl(a: Nodes)
    ensures Grows(a, a)
  {
  }

  lemma GrowsTrans(a: Nodes, b: Nodes, c: Nodes)
    requires Grows(a, b) && Grows(b, c)
    ensures Grows(a, c)
  {
    forall i, j | 0 <= i < |a| && |a[i].children| <= j < |c[i].children|
      ensures c[i].children[j] < |c| && c[c[i].children[j]].nodeType == EntryType
    {
      if j < |b[i].children| {
        var x := b[i].children[j];
        assert c[i].children[j] == x;
        assert c[x].(children := b[x].children) == b[x];
      }
    }
  }

  lemma AddEntryGrows(a: Nodes, p: nat, caption: string, items: seq<Attribute>)
    requires p < |a|
    requires a[p].nodeType != VirtualAttributesType && a[p].nodeType != AttributeType
    ensures Grows(a, AddEntry(a, p, caption, items))
  {
    var c, e := AddEntry(a, p, caption, items), |a|;
    AddEntryShape(a, p, caption, items);
    forall i, j | 0 <= i < |a| && |a[i].children| <= j < |c[i].children|
      ensures c[i].children[j] < |c| && c[c[i].children[j]].nodeType == EntryType
    {
      assert i == p && c[i].children[j] == e;
    }
  }

  lemma BuildLastGrows(rs: seq<Record>)
    requires rs != []
    ensures Grows(Build(rs[..|rs| - 1]), Build(rs))
  {
    var init, r := rs[..|rs| - 1], rs[|rs| - 1];
    var a, m := Build(init), MapOf(init);
    BuildInv(init);
    EntryParentOk(a, m, r.dn);
    AddEntryGrows(a, EntryParent(m, r.dn), EntryLabel(m, r.dn), AttrItems(r));
  }

  lemma BuildPrefix(rs: seq<Record>, k: nat)
    requires k < |rs|
    ensures Build(rs[..|rs| - 1][..k]) == Build(rs[..k])
  {
    assert rs[..|rs| - 1][..k] == rs[..k];
  }

  /** The arena after the first `k` records grows into the final arena. */
  lemma {:induction false} BuildGrows(rs: seq<Record>, k: nat)
    requires k <= |rs|
    ensures Grows(Build(rs[..k]), Build(rs))
    decreases |rs|, 1
  {
    if k == |rs| {
      assert rs[..k] == rs;
      GrowsRefl(Build(rs));
    } else {
      BuildGrowsInit(rs, k);
      BuildLastGrows(rs);
      GrowsTrans(Build(rs[..k]), Build(rs[..|rs| - 1]), Build(rs));
    }
  }

  lemma {:induction false} BuildGrowsInit(rs: seq<Record>, k: nat)
    requires k < |rs|
    ensures Grows(Build(rs[..k]), Build(rs[..|rs| - 1]))
    decreases |rs|, 0
  {
    BuildPrefix(rs, k);
    BuildGrows(rs[..|rs| - 1], k);
  }

  /** The `k`-th record is added to the arena of the records before it,
      with the parent and caption the DN map of those records gives. */
  lemma BuildLast(rs: seq<Record>, k: nat)
    requires k < |rs|
    ensures var m := MapOf(rs[..k]);
      Build(rs[..k + 1]) == AddEntry(Build(rs[..k]), EntryParent(m, rs[k].dn), EntryLabel(m, rs[k].dn), AttrItems(rs[k]))
  {
    assert rs[..k + 1][..k] == rs[..k];
  }

  /** The `k`-th record registers its DN at the id of its entry node. */
  lemma MapOfLast(rs: seq<Record>, k: nat)
    requires k < |rs|
    ensures MapOf(rs[..k + 1]) == MapOf(rs[..k])[rs[k].dn := Offset(rs, k)]
  {
    assert rs[..k + 1][..k] == rs[..k];
  }

  /** One step of the loop over records, from any state that keeps the
      invariant: the parent is the root or an entry, the new entry is
      appended at the end of the parent's children, the `@attributes` node
      is the entry's only child, and one leaf per item hangs below it. */
  lemma RecordStep(a: Nodes, m: map<string, nat>, dn: string, items: seq<Attribute>)
    requires Inv(a, m)
    ensures var e, p := |a|, EntryParent(m, dn);
      var c := AddEntry(a, p, EntryLabel(m, dn), items);
      && p < e && (p == 0 || a[p].nodeType == EntryType)
      && |c| == e + 2 + |items|
      && c[p].children == a[p].children + [e]
      && c[e] == NewNode(EntryLabel(m, dn), EntryType).(parentId := Some(p), children := [e + 1])
      && c[e + 1] == VirtualNode().(parentId := Some(e), children := Ids(e + 2, |items|))
      && (forall i :: 0 <= i < |items| ==> c[e + 2 + i] == AttrLeaf(items[i]).(parentId := Some(e + 1)))
      && (forall i :: 0 <= i < e && i != p ==> c[i] == a[i])
  {
    EntryParentOk(a, m, dn);
    AddEntryShape(a, EntryParent(m, dn), EntryLabel(m, dn), items);
  }

  // ---------------------------------------------------------------------
  // The DN map: the later record wins
  // ---------------------------------------------------------------------

  /** The position of the last record with DN `d`, if any. */
  function LastIndex(rs: seq<Record>, d: string): (r: Option<nat>)
    ensures r.Some? ==> r.value < |rs| && rs[r.value].dn == d
    ensures r.Some? ==> forall j :: r.value < j < |rs| ==> rs[j].dn != d
    ensures r.None? ==> forall j :: 0 <= j < |rs| ==> rs[j].dn != d
  {
    if rs == [] then None
    else if rs[|rs| - 1].dn == d then Some(|rs| - 1)
    else LastIndex(rs[..|rs| - 1], d)
  }

  /** A DN is registered iff some record has it, and it maps to the entry
      of the last such record. */
  lemma {:induction false} DnMapSpec(rs: seq<Record>, d: string)
    ensures (d in MapOf(rs)) == LastIndex(rs, d).Some?
    ensures d in MapOf(rs) ==> MapOf(rs)[d] == Offset(rs, LastIndex(rs, d).value)
  {
    if rs != [] {
      var init := rs[..|rs| - 1];
      DnMapSpec(init, d);
      if rs[|rs| - 1].dn != d && LastIndex(init, d).Some? {
        var j := LastIndex(init, d).value;
        assert init[..j] == rs[..j];
      }
    }
  }

  /** Where the `k`-th record goes: below the entry of the last earlier
      record whose DN is its parent DN, with the caption made relative to
      that DN; below the root with the whole trimmed DN as caption when no
      earlier record has that DN. */
  lemma EntryPlacement(rs: seq<Record>, k: nat)
    requires k < |rs|
    ensures var m, pd := MapOf(rs[..k]), GetParentDn(rs[k].dn);
      if pd.Some? && LastIndex(rs[..k], pd.value).Some? then
        var j := LastIndex(rs[..k], pd.value).value;
        j < k && EntryParent(m, rs[k].dn) == Offset(rs, j) && EntryLabel(m, rs[k].dn) == ComputeRdn(rs[k].dn, pd)
      else
        EntryParent(m, rs[k].dn) == 0 && EntryLabel(m, rs[k].dn) == Trim(rs[k].dn)
  {
    var pd := GetParentDn(rs[k].dn);
    if pd.Some? {
      DnMapSpec(rs[..k], pd.value);
      if LastIndex(rs[..k], pd.value).Some? {
        var j := LastIndex(rs[..k], pd.value).value;
        assert rs[..k][..j] == rs[..j];
      }
    }
  }
}
