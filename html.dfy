/** The HTML tree builder (src/parser/html.rs). The scraper crate's parsed
    document is a `Dom` value; the builder walks the children of the root
    element. Every node is added with `add_node` and its id pushed onto the
    parent's children, so no node it creates has a parent link; the
    `@attributes` container is added after its leaves, so its children have
    smaller ids than itself. */
module HtmlParser {
  import opened Wrappers
  import opened Node
  import opened Arena
  import opened Text

  datatype Dom =
    | Element(name: string, attrs: seq<Attribute>, kids: seq<Dom>)
    | TextNode(text: string)
    | Comment(comment: string)
    /** Doctype, processing instruction and the other kinds, which are skipped. */
    | Other

  /** Number of nodes `create_virtual_attributes_node` adds. */
  function VirtualSize(attrs: seq<Attribute>): nat {
    if attrs == [] then 0 else |attrs| + 1
  }

  /** `create_virtual_attributes_node`: nothing for no attributes; otherwise
      one unlinked leaf per attribute, in the element's order, then the
      container listing them. */
  function CreateVirtual(a: Nodes, attrs: seq<Attribute>): (r: (Nodes, Option<nat>))
    ensures |r.0| == |a| + VirtualSize(attrs)
    ensures r.1.Some? <==> attrs != []
    ensures r.1.Some? ==> r.1.value == |a| + |attrs|
  {
    if attrs == [] then (a, None)
    else (a + Leaves(attrs) + [VirtualNode().(children := Ids(|a|, |attrs|))], Some(|a| + |attrs|))
  }

  /** The container's id, as the first entry of the element's children. */
  function VirtualIds(e: nat, attrs: seq<Attribute>): seq<nat> {
    if attrs == [] then [] else [e + 1 + |attrs|]
  }

  function ElementNode(name: string, attrs: seq<Attribute>): TreeNode {
    TreeNode(name, "element", attrs, [], None)
  }

  function TextLeaf(text: string): TreeNode {
    TreeNode("text", "text", [Attribute("content", text)], [], None)
  }

  function CommentLeaf(text: string): TreeNode {
    TreeNode("comment", "comment", [Attribute("content", text)], [], None)
  }

  /** Nodes the traversal of `d` adds. */
  function DomSize(d: Dom): nat
    decreases d, 1
  {
    match d
    case Element(_, attrs, kids) => 1 + VirtualSize(attrs) + KidsSize(kids)
    case TextNode(t) => if Trim(t) == [] then 0 else 1
    case Comment(_) => 1
    case Other => 0
  }

  function KidsSize(ds: seq<Dom>): nat
    decreases ds, 0
  {
    if ds == [] then 0 else DomSize(ds[0]) + KidsSize(ds[1..])
  }

  /** The ids the traversal of `ds` appends to their parent, the first new
      node being `base`: one per element, comment and non-blank text. */
  function TopIds(base: nat, ds: seq<Dom>): seq<nat>
    decreases ds
  {
    if ds == [] then []
    else (if DomSize(ds[0]) == 0 then [] else [base]) + TopIds(base + DomSize(ds[0]), ds[1..])
  }

  /** The element's node followed by its attribute nodes, the container
      listed first among the element's children. */
  function ElementAlone(a: Nodes, name: string, attrs: seq<Attribute>): (r: Nodes)
    ensures |r| == |a| + 1 + VirtualSize(attrs)
  {
    var e := |a|;
    var (b, v) := CreateVirtual(a + [ElementNode(name, attrs)], attrs);
    if v.Some? then InsertFirstChildAt(b, e, v.value) else b
  }

  /** The arena after the element itself, its attribute nodes, and its link
      from the parent, before its children are visited. */
  function ElementHead(a: Nodes, p: nat, name: string, attrs: seq<Attribute>): (r: Nodes)
    ensures |r| == |a| + 1 + VirtualSize(attrs)
  {
    AppendChildAt(ElementAlone(a, name, attrs), p, |a|)
  }

  /** `traverse_node(tree, p, d)` on the node vector. */
  function Traverse(a: Nodes, p: nat, d: Dom): (r: Nodes)
    ensures |r| == |a| + DomSize(d)
    decreases d, 1
  {
    match d
    case Element(name, attrs, kids) => TraverseAll(ElementHead(a, p, name, attrs), |a|, kids)
    case TextNode(t) =>
      var trimmed := Trim(t);
      if trimmed == [] then a else AppendChildAt(a + [TextLeaf(trimmed)], p, |a|)
    case Comment(c) => AppendChildAt(a + [CommentLeaf(c)], p, |a|)
    case Other => a
  }

  /** `traverse_node` on each of `ds`, in order, under the same parent. */
  function TraverseAll(a: Nodes, p: nat, ds: seq<Dom>): (r: Nodes)
    ensures |r| == |a| + KidsSize(ds)
    decreases ds, 0
  {
    if ds == [] then a else TraverseAll(Traverse(a, p, ds[0]), p, ds[1..])
  }

  /** The children of the root element go under the root node. */
  function HtmlTree(top: seq<Dom>): Nodes {
    TraverseAll([NewNode("root", "root")], 0, top)
  }

  /** `a` with `ids` appended to the children of node `p`. */
  function Touch(a: Nodes, p: nat, ids: seq<nat>): Nodes
    requires p < |a|
  {
    a[p := a[p].(children := a[p].children + ids)]
  }

  lemma TouchTwice(a: Nodes, p: nat, xs: seq<nat>, ys: seq<nat>)
    requires p < |a|
    ensures Touch(Touch(a, p, xs), p, ys) == Touch(a, p, xs + ys)
  {
    assert a[p].children + xs + ys == a[p].children + (xs + ys);
  }

  lemma TouchNone(a: Nodes, p: nat)
    requires p < |a|
    ensures Touch(a, p, []) == a
  {
    assert a[p].children + [] == a[p].children;
  }

  /** Touching a node below `m` commutes with cutting the arena at `m`. */
  lemma TouchSlice(b: Nodes, q: nat, ids: seq<nat>, m: nat)
    requires q < m <= |b|
    ensures Touch(b, q, ids)[..m] == Touch(b[..m], q, ids)
  {
  }

  /** Linking a new node `|a|` under `p` touches only `p`. */
  lemma LinkNew(c: Nodes, a: Nodes, p: nat)
    requires p < |a| < |c| && c[..|a|] == a
    ensures var r := AppendChildAt(c, p, |a|);
      && r[..|a|] == Touch(a, p, [|a|])
      && forall i :: |a| <= i < |c| ==> r[i] == c[i]
  {
    var r := AppendChildAt(c, p, |a|);
    assert c[p] == a[p];
    forall i | 0 <= i < |a| ensures r[i] == Touch(a, p, [|a|])[i] {
      assert c[i] == a[i];
    }
  }

  /** What the element's own node looks like once its subtree is built: its
      attributes, then the container (when it has attributes) followed by its
      visible children. */
  function ElementResult(e: nat, name: string, attrs: seq<Attribute>, kids: seq<Dom>): TreeNode {
    TreeNode(name, "element", attrs, VirtualIds(e, attrs) + TopIds(e + 1 + VirtualSize(attrs), kids), None)
  }

  /** The attribute leaves, then the container listing them, all appended
      after the existing nodes. */
  lemma CreateVirtualShape(b: Nodes, attrs: seq<Attribute>)
    requires attrs != []
    ensures var r := CreateVirtual(b, attrs).0;
      && r[..|b|] == b
      && r[|b| + |attrs|] == TreeNode("@attributes", "@attributes", [], Ids(|b|, |attrs|), None)
      && forall k :: 0 <= k < |attrs| ==> r[|b| + k] == AttrLeaf(attrs[k])
  {
    var r := CreateVirtual(b, attrs).0;
    assert r == b + Leaves(attrs) + [VirtualNode().(children := Ids(|b|, |attrs|))];
    forall k | 0 <= k < |attrs| ensures r[|b| + k] == AttrLeaf(attrs[k]) {
      assert r[|b| + k] == Leaves(attrs)[k];
    }
  }

  /** The attribute leaves and the container, when the first leaf gets id
      `base`. */
  function VirtualTail(base: nat, attrs: seq<Attribute>): (r: Nodes)
    ensures |r| == VirtualSize(attrs)
  {
    if attrs == [] then [] else Leaves(attrs) + [VirtualNode().(children := Ids(base, |attrs|))]
  }

  lemma ElementAloneFlat(a: Nodes, name: string, attrs: seq<Attribute>)
    ensures ElementAlone(a, name, attrs)
      == a + [ElementNode(name, attrs).(children := VirtualIds(|a|, attrs))] + VirtualTail(|a| + 1, attrs)
  {
    var b0 := a + [ElementNode(name, attrs)];
    var t := VirtualTail(|b0|, attrs);
    if attrs != [] {
      var b := b0 + t;
      var v := |a| + 1 + |attrs|;
      var ct := VirtualNode().(children := Ids(|b0|, |attrs|));
      assert t == Leaves(attrs) + [ct];
      assert b0 + Leaves(attrs) + [ct] == b;
      assert CreateVirtual(b0, attrs) == (b, Some(v));
      assert ElementAlone(a, name, attrs) == InsertFirstChildAt(b, |a|, v);
      assert b[|a|] == ElementNode(name, attrs);
      var x := ElementNode(name, attrs).(children := VirtualIds(|a|, attrs));
      assert x == b[|a|].(children := [v] + b[|a|].children);
      assert b[|a| := x] == a + [x] + t;
    }
  }

  lemma ElementAloneShape(a: Nodes, name: string, attrs: seq<Attribute>)
    ensures var c := ElementAlone(a, name, attrs);
      && c[..|a|] == a
      && c[|a|] == ElementNode(name, attrs).(children := VirtualIds(|a|, attrs))
      && (forall i :: |a| < i < |c| ==> c[i].parentId == None)
      && (attrs != [] ==>
           && c[|a| + 1 + |attrs|] == TreeNode("@attributes", "@attributes", [], Ids(|a| + 1, |attrs|), None)
           && forall k :: 0 <= k < |attrs| ==> c[|a| + 1 + k] == AttrLeaf(attrs[k]))
  {
    var x := ElementNode(name, attrs).(children := VirtualIds(|a|, attrs));
    var t := VirtualTail(|a| + 1, attrs);
    ElementAloneFlat(a, name, attrs);
    AfterPrefix(a, x, t);
    TailUnlinked(|a| + 1, attrs);
  }

  /** The shape of `a + [x] + t`, read off position by position. */
  lemma AfterPrefix(a: Nodes, x: TreeNode, t: Nodes)
    ensures var c := a + [x] + t;
      && c[..|a|] == a && c[|a|] == x
      && forall j :: 0 <= j < |t| ==> c[|a| + 1 + j] == t[j]
  {
  }

  /** Every node of the tail is unlinked; the leaves come first, then the
      container listing them. */
  lemma TailUnlinked(base: nat, attrs: seq<Attribute>)
    ensures var t := VirtualTail(base, attrs);
      && (forall j :: 0 <= j < |t| ==> t[j].parentId == None)
      && (attrs != [] ==>
           && t[|attrs|] == TreeNode("@attributes", "@attributes", [], Ids(base, |attrs|), None)
           && forall k :: 0 <= k < |attrs| ==> t[k] == AttrLeaf(attrs[k]))
  {
    var t := VirtualTail(base, attrs);
    if attrs != [] {
      forall j | 0 <= j < |t| ensures t[j].parentId == None {
        if j < |attrs| {
          assert t[j] == Leaves(attrs)[j];
        }
      }
    }
  }

  lemma ElementHeadShape(a: Nodes, p: nat, name: string, attrs: seq<Attribute>)
    requires p < |a|
    ensures var r := ElementHead(a, p, name, attrs);
      && r[..|a|] == Touch(a, p, [|a|])
      && r[|a|] == ElementNode(name, attrs).(children := VirtualIds(|a|, attrs))
      && (forall i :: |a| < i < |r| ==> r[i].parentId == None)
      && (attrs != [] ==>
           && r[|a| + 1 + |attrs|] == TreeNode("@attributes", "@attributes", [], Ids(|a| + 1, |attrs|), None)
           && forall k :: 0 <= k < |attrs| ==> r[|a| + 1 + k] == AttrLeaf(attrs[k]))
  {
    var c := ElementAlone(a, name, attrs);
    ElementAloneShape(a, name, attrs);
    LinkNew(c, a, p);
  }

  /** Pushing a leaf and linking it under `p`. */
  lemma AppendNew(a: Nodes, p: nat, n: TreeNode)
    requires p < |a|
    ensures AppendChildAt(a + [n], p, |a|) == Touch(a, p, [|a|]) + [n]
  {
    var r := AppendChildAt(a + [n], p, |a|);
    assert r[..|a|] == Touch(a, p, [|a|]) by {
      LinkNew(a + [n], a, p);
    }
    assert r == r[..|a|] + [r[|a|]];
  }

  /** Traversing one DOM node: the parent gains the node's id when it is
      visible, no other existing node changes, every added node is unlinked,
      and an element carries its attributes and lists the container first,
      then its visible children. */
  lemma {:induction false} TraverseShape(a: Nodes, p: nat, d: Dom)
    requires p < |a|
    ensures Shaped(a, Traverse(a, p, d), p, if DomSize(d) == 0 then [] else [|a|])
    ensures d.Element? ==> Traverse(a, p, d)[|a|] == ElementResult(|a|, d.name, d.attrs, d.kids)
    decreases d, 1
  {
    match d
    case Element(name, attrs, kids) =>
      ElementShape(a, p, name, attrs, kids);
    case TextNode(t) =>
      if Trim(t) != [] {
        AppendNew(a, p, TextLeaf(Trim(t)));
      } else {
        assert a[..|a|] == a;
        TouchNone(a, p);
      }
    case Comment(c) =>
      AppendNew(a, p, CommentLeaf(c));
    case Other =>
      assert a[..|a|] == a;
      TouchNone(a, p);
  }

  lemma {:induction false} ElementShape(a: Nodes, p: nat, name: string, attrs: seq<Attribute>, kids: seq<Dom>)
    requires p < |a|
    ensures Shaped(a, Traverse(a, p, Element(name, attrs, kids)), p, [|a|])
    ensures Traverse(a, p, Element(name, attrs, kids))[|a|] == ElementResult(|a|, name, attrs, kids)
    decreases kids, 1
  {
    var h := ElementHead(a, p, name, attrs);
    var r := TraverseAll(h, |a|, kids);
    assert r == Traverse(a, p, Element(name, attrs, kids)) by {
      TraverseElement(a, p, name, attrs, kids);
    }
    assert h[..|a|] == Touch(a, p, [|a|]) && h[|a|] == ElementNode(name, attrs).(children := VirtualIds(|a|, attrs))
      && (forall i :: |a| < i < |h| ==> h[i].parentId == None) by {
      ElementHeadShape(a, p, name, attrs);
    }
    assert Shaped(a, h, p, [|a|]);
    TraverseAllShape(h, |a|, kids);
    ElementAssemble(a, h, r, p, TopIds(|h|, kids));
  }

  lemma ElementAssemble(a: Nodes, h: Nodes, r: Nodes, p: nat, ids: seq<nat>)
    requires |a| < |h| && Shaped(a, h, p, [|a|]) && Shaped(h, r, |a|, ids)
    ensures Shaped(a, r, p, [|a|])
    ensures r[|a|] == h[|a|].(children := h[|a|].children + ids)
  {
    var t := Touch(h, |a|, ids);
    assert r[..|a|] == t[..|a|];
    assert t[..|a|] == h[..|a|];
    assert r[|a|] == t[|a|];
    forall i | |a| <= i < |r| ensures r[i].parentId == None {
      if i < |h| {
        assert r[i] == t[i];
      }
    }
  }

  /** `r` extends `a`: the only earlier node that changed is `q`, which
      got `ids` appended to its children, and no added node is linked. */
  ghost predicate Shaped(a: Nodes, r: Nodes, q: nat, ids: seq<nat>) {
    q < |a| <= |r| && r[..|a|] == Touch(a, q, ids) && forall i :: |a| <= i < |r| ==> r[i].parentId == None
  }

  /** Traversing a list of siblings appends their visible ids to the parent,
      in order, changes no other existing node, and links no added node. */
  lemma {:induction false} TraverseAllShape(a: Nodes, q: nat, ds: seq<Dom>)
    requires q < |a|
    ensures Shaped(a, TraverseAll(a, q, ds), q, TopIds(|a|, ds))
    decreases ds, 0
  {
    if ds == [] {
      var r := TraverseAll(a, q, ds);
      assert r[..|a|] == a;
      TouchNone(a, q);
    } else {
      var b := Traverse(a, q, ds[0]);
      var head := if DomSize(ds[0]) == 0 then [] else [|a|];
      assert Shaped(a, b, q, head) by {
        TraverseShape(a, q, ds[0]);
      }
      var r, tail := TraverseAll(b, q, ds[1..]), TopIds(|b|, ds[1..]);
      TraverseAllShape(b, q, ds[1..]);
      SiblingAssemble(a, b, r, q, head, tail);
      assert TraverseAll(a, q, ds) == r by {
        TraverseAllCons(a, q, ds);
      }
      assert TopIds(|a|, ds) == head + tail by {
        TopIdsCons(|a|, ds);
      }
    }
  }

  lemma TraverseElement(a: Nodes, p: nat, name: string, attrs: seq<Attribute>, kids: seq<Dom>)
    ensures Traverse(a, p, Element(name, attrs, kids)) == TraverseAll(ElementHead(a, p, name, attrs), |a|, kids)
  {
  }

  lemma TraverseAllCons(a: Nodes, q: nat, ds: seq<Dom>)
    requires ds != []
    ensures TraverseAll(a, q, ds) == TraverseAll(Traverse(a, q, ds[0]), q, ds[1..])
  {
  }

  lemma TopIdsCons(base: nat, ds: seq<Dom>)
    requires ds != []
    ensures TopIds(base, ds) == (if DomSize(ds[0]) == 0 then [] else [base]) + TopIds(base + DomSize(ds[0]), ds[1..])
  {
  }

  lemma SiblingAssemble(a: Nodes, b: Nodes, r: Nodes, q: nat, head: seq<nat>, tail: seq<nat>)
    requires Shaped(a, b, q, head) && Shaped(b, r, q, tail)
    ensures Shaped(a, r, q, head + tail)
  {
    var t := Touch(b, q, tail);
    assert r[..|a|] == t[..|a|];
    TouchSlice(b, q, tail, |a|);
    TouchTwice(a, q, head, tail);
    forall i | |a| <= i < |r| ensures r[i].parentId == None {
      if i < |b| {
        assert r[i] == t[i];
      }
    }
  }

  /** The order the builder keeps: every child id names a node, and a child
      listed by a node added after it is an attribute leaf, which has no
      children. */
  ghost predicate AttrLayered(a: Nodes) {
    forall i, k :: 0 <= i < |a| && 0 <= k < |a[i].children| ==> LayeredAt(a, i, a[i].children[k])
  }

  ghost predicate LayeredAt(a: Nodes, i: nat, c: nat) {
    c < |a| && (i < c || (a[c].children == [] && a[c].nodeType == AttributeType))
  }

  /** Linking the next id under a node that is not an attribute leaf keeps
      the order of every existing node's children. */
  lemma PrefixLayered(a: Nodes, p: nat, r: Nodes)
    requires AttrLayered(a) && p < |a| && a[p].nodeType != AttributeType
    requires |a| < |r| && r[..|a|] == Touch(a, p, [|a|])
    ensures forall i, k :: 0 <= i < |a| && 0 <= k < |r[i].children| ==> LayeredAt(r, i, r[i].children[k])
  {
    var t := Touch(a, p, [|a|]);
    forall i, k | 0 <= i < |a| && 0 <= k < |r[i].children| ensures LayeredAt(r, i, r[i].children[k]) {
      assert r[i] == t[i];
      if i != p || k < |a[p].children| {
        var c := a[i].children[k];
        assert r[i].children[k] == c && LayeredAt(a, i, c);
        assert r[c] == t[c];
      }
    }
  }

  /** A leaf added under a node that is not an attribute leaf. */
  lemma LeafLayered(a: Nodes, p: nat, n: TreeNode)
    requires AttrLayered(a) && p < |a| && a[p].nodeType != AttributeType && n.children == []
    ensures AttrLayered(Touch(a, p, [|a|]) + [n])
  {
    var r := Touch(a, p, [|a|]) + [n];
    assert r[..|a|] == Touch(a, p, [|a|]);
    PrefixLayered(a, p, r);
  }

  /** The element, its attribute leaves and the container that lists them. */
  lemma HeadLayered(a: Nodes, p: nat, name: string, attrs: seq<Attribute>)
    requires AttrLayered(a) && p < |a| && a[p].nodeType != AttributeType
    ensures var h := ElementHead(a, p, name, attrs);
      |a| < |h| && h[|a|].nodeType == "element" && AttrLayered(h)
  {
    var h := ElementHead(a, p, name, attrs);
    ElementHeadShape(a, p, name, attrs);
    PrefixLayered(a, p, h);
    var v := |a| + 1 + |attrs|;
    forall i, k | |a| <= i < |h| && 0 <= k < |h[i].children| ensures LayeredAt(h, i, h[i].children[k]) {
      if i == |a| {
        assert h[i].children == [v];
      } else if i == v {
        assert h[|a| + 1 + k] == AttrLeaf(attrs[k]);
      }
    }
  }

  /** Traversing keeps the order, below any node that is not an attribute
      leaf. */
  lemma {:induction false} TraverseLayered(a: Nodes, p: nat, d: Dom)
    requires AttrLayered(a) && p < |a| && a[p].nodeType != AttributeType
    ensures AttrLayered(Traverse(a, p, d))
    decreases d, 1
  {
    match d
    case Element(name, attrs, kids) =>
      HeadLayered(a, p, name, attrs);
      TraverseAllLayered(ElementHead(a, p, name, attrs), |a|, kids);
      TraverseElement(a, p, name, attrs, kids);
    case TextNode(t) =>
      if Trim(t) != [] {
        AppendNew(a, p, TextLeaf(Trim(t)));
        LeafLayered(a, p, TextLeaf(Trim(t)));
      }
    case Comment(c) =>
      AppendNew(a, p, CommentLeaf(c));
      LeafLayered(a, p, CommentLeaf(c));
    case Other =>
  }

  lemma {:induction false} TraverseAllLayered(a: Nodes, q: nat, ds: seq<Dom>)
    requires AttrLayered(a) && q < |a| && a[q].nodeType != AttributeType
    ensures AttrLayered(TraverseAll(a, q, ds))
    decreases ds, 0
  {
    if ds != [] {
      var b := Traverse(a, q, ds[0]);
      TraverseLayered(a, q, ds[0]);
      assert b[q].nodeType == a[q].nodeType by {
        TraverseShape(a, q, ds[0]);
        assert b[q] == b[..|a|][q];
      }
      TraverseAllLayered(b, q, ds[1..]);
      TraverseAllCons(a, q, ds);
    }
  }

  /** The built tree: no node has a parent link, the root lists the visible
      top-level nodes, and children follow their parents except for the
      attribute leaves, which come just before the container listing them. */
  lemma HtmlTreeShape(top: seq<Dom>)
    ensures var r := HtmlTree(top);
      && |r| == 1 + KidsSize(top)
      && (forall i :: 0 <= i < |r| ==> r[i].parentId == None)
      && r[0].children == TopIds(1, top)
      && ChildrenFollowOrLeaf(r)
  {
    var a := [NewNode("root", "root")];
    TraverseAllShape(a, 0, top);
    var r := HtmlTree(top);
    assert r[0] == r[..1][0];
    TraverseAllLayered(a, 0, top);
  }

  /** Whitespace-only text adds nothing; a comment is kept untrimmed. */
  lemma TextAndComments(a: Nodes, p: nat, t: string)
    requires p < |a|
    ensures AllWhite(t) ==> Traverse(a, p, TextNode(t)) == a
    ensures !AllWhite(t) ==> Traverse(a, p, TextNode(t)) == Touch(a, p, [|a|]) + [TextLeaf(Trim(t))]
    ensures Traverse(a, p, Comment(t)) == Touch(a, p, [|a|]) + [CommentLeaf(t)]
  {
    TrimEmptyIffAllWhite(t);
    AppendNew(a, p, CommentLeaf(t));
    if !AllWhite(t) {
      AppendNew(a, p, TextLeaf(Trim(t)));
    }
  }

  lemma TraverseHeadAttributes(a: Nodes, p: nat, name: string, attrs: seq<Attribute>, kids: seq<Dom>)
    requires p < |a| && attrs != []
    ensures var r := Traverse(a, p, Element(name, attrs, kids));
      && r[|a| + 1 + |attrs|] == TreeNode("@attributes", "@attributes", [], Ids(|a| + 1, |attrs|), None)
      && forall k :: 0 <= k < |attrs| ==> r[|a| + 1 + k] == AttrLeaf(attrs[k])
  {
    var h := ElementHead(a, p, name, attrs);
    ElementHeadShape(a, p, name, attrs);
    TraverseAllShape(h, |a|, kids);
    var r := Traverse(a, p, Element(name, attrs, kids));
    assert r == TraverseAll(h, |a|, kids);
    forall i | |a| < i < |h| ensures r[i] == h[i] {
      assert r[i] == r[..|h|][i];
    }
  }

  /** The element's attributes are listed under the container in the order
      the element gives them, each as an unlinked "attribute" leaf; the
      container's children have smaller ids than the container. */
  lemma ElementAttributes(a: Nodes, p: nat, name: string, attrs: seq<Attribute>, kids: seq<Dom>)
    requires p < |a| && attrs != []
    ensures var r := Traverse(a, p, Element(name, attrs, kids)); var v := |a| + 1 + |attrs|;
      && |r[|a|].children| > 0 && r[|a|].children[0] == v
      && r[v].children == Ids(|a| + 1, |attrs|)
      && forall k :: 0 <= k < |attrs| ==>
           r[r[v].children[k]] == TreeNode(attrs[k].key, AttributeType, [Attribute("value", attrs[k].value)], [], None)
           && r[v].children[k] < v
  {
    TraverseShape(a, p, Element(name, attrs, kids));
    TraverseHeadAttributes(a, p, name, attrs, kids);
  }

  /** `create_virtual_attributes_node`. */
  method CreateVirtualAttributesNode(tree: Tree, attrs: seq<Attribute>) returns (v: Option<nat>)
    modifies tree
    ensures (tree.nodes, v) == CreateVirtual(old(tree.nodes), attrs)
  {
    if attrs == [] {
      return None;
    }
    var a := tree.nodes;
    var container := VirtualNode();
    var i := 0;
    while i < |attrs|
      invariant 0 <= i <= |attrs|
      invariant tree.nodes == a + Leaves(attrs[..i])
      invariant container == VirtualNode().(children := Ids(|a|, i))
    {
      container := AddAttributeLeaf(tree, a, attrs, i, container);
      i := i + 1;
    }
    assert attrs[..i] == attrs;
    var vid := tree.AddNode(container);
    return Some(vid);
  }

  /** One turn of the loop of `create_virtual_attributes_node`: the
      attribute's leaf is added and its id listed in the container. */
  method AddAttributeLeaf(tree: Tree, a: Nodes, attrs: seq<Attribute>, i: nat, container: TreeNode) returns (c: TreeNode)
    requires i < |attrs| && tree.nodes == a + Leaves(attrs[..i])
    requires container == VirtualNode().(children := Ids(|a|, i))
    modifies tree
    ensures tree.nodes == a + Leaves(attrs[..i + 1])
    ensures c == VirtualNode().(children := Ids(|a|, i + 1))
  {
    var leaf := AttrLeaf(attrs[i]);
    assert Leaves(attrs[..i + 1]) == Leaves(attrs[..i]) + [leaf] by {
      assert attrs[..i + 1][..i] == attrs[..i];
    }
    IdsSnoc(|a|, i);
    var id := tree.AddNode(leaf);
    c := AddChild(container, id);
    assert tree.nodes == a + (Leaves(attrs[..i]) + [leaf]);
  }

  /** `traverse_node`: the parent must exist (the source unwraps it). */
  method TraverseNode(tree: Tree, p: nat, d: Dom)
    requires p < |tree.nodes|
    modifies tree
    ensures tree.nodes == Traverse(old(tree.nodes), p, d)
    decreases d, 1
  {
    match d {
      case Element(name, attrs, kids) =>
        var a := tree.nodes;
        var elem := NewNode(name, "element");
        var j := 0;
        while j < |attrs|
          invariant 0 <= j <= |attrs|
          invariant elem == ElementNode(name, attrs[..j])
        {
          elem := AddAttribute(elem, attrs[j].key, attrs[j].value);
          j := j + 1;
        }
        assert attrs[..j] == attrs;
        var e := tree.AddNode(elem);
        var v := CreateVirtualAttributesNode(tree, attrs);
        if v.Some? {
          tree.InsertFirstChild(e, v.value);
        }
        tree.AppendChild(p, e);
        assert tree.nodes == ElementHead(a, p, name, attrs);
        TraverseChildren(tree, e, kids);
      case TextNode(t) =>
        var trimmed := Trim(t);
        if trimmed != [] {
          var id := tree.AddNode(AddAttribute(NewNode("text", "text"), "content", trimmed));
          tree.AppendChild(p, id);
        }
      case Comment(c) =>
        var id := tree.AddNode(AddAttribute(NewNode("comment", "comment"), "content", c));
        tree.AppendChild(p, id);
      case Other =>
    }
  }

  /** `for child in node.children() { traverse_node(tree, p, child) }`. */
  method TraverseChildren(tree: Tree, p: nat, ds: seq<Dom>)
    requires p < |tree.nodes|
    modifies tree
    ensures tree.nodes == TraverseAll(old(tree.nodes), p, ds)
    decreases ds, 0
  {
    var i := 0;
    while i < |ds|
      invariant 0 <= i <= |ds| && p < |tree.nodes|
      invariant TraverseAll(tree.nodes, p, ds[i..]) == TraverseAll(old(tree.nodes), p, ds)
    {
      assert ds[i..][0] == ds[i] && ds[i..][1..] == ds[i + 1..];
      TraverseNode(tree, p, ds[i]);
      i := i + 1;
    }
  }

  /** `HtmlParser::parse`, given the children of the document's root element;
      parsing HTML never fails. */
  method Parse(top: seq<Dom>) returns (r: Result<Tree, XtvError>)
    ensures r.Ok? && fresh(r.value) && r.value.nodes == HtmlTree(top)
  {
    var tree := new Tree(NewNode("root", "root"));
    TraverseChildren(tree, tree.rootId, top);
    return Ok(tree);
  }
}
