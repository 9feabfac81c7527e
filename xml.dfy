/** The XML tree builder (src/parser/xml.rs). The quick_xml reader is
    replaced by the sequence of events it yields; each attribute and each
    text unescape is given as the result the reader reports for it. */
module XmlParser {
  import opened Wrappers
  import opened Node
  import opened Arena
  import opened Text
  import opened Sorting

  datatype Event =
    | Start(name: string, attrs: seq<Result<Attribute, string>>)
    | End
    | Text(unescaped: Result<string, string>)
    | Empty(name: string, attrs: seq<Result<Attribute, string>>)
    | Eof
    | Other
    | ReadError(message: string)

  /** The attributes of a tag, or the first attribute error. */
  function CollectAttrs(rs: seq<Result<Attribute, string>>): (r: Result<seq<Attribute>, string>)
    ensures r.Ok? ==> |r.value| == |rs| && forall i :: 0 <= i < |rs| ==> rs[i] == Ok(r.value[i])
    ensures r.Err? <==> exists i :: 0 <= i < |rs| && rs[i].Err?
  {
    if rs == [] then Ok([])
    else
      var n := |rs| - 1;
      assert forall i :: 0 <= i < n ==> rs[..n][i] == rs[i];
      match CollectAttrs(rs[..n])
      case Err(e) => Err(e)
      case Ok(init) =>
        match rs[n]
        case Err(e) => Err(e)
        case Ok(a) => Ok(init + [a])
  }

  /** The first error is final: later attributes cannot undo it. */
  lemma {:induction false} CollectAttrsErrPrefix(rs: seq<Result<Attribute, string>>, n: nat)
    requires n <= |rs| && CollectAttrs(rs[..n]).Err?
    ensures CollectAttrs(rs) == CollectAttrs(rs[..n])
    decreases |rs| - n
  {
    if n < |rs| {
      assert rs[..n + 1][..n] == rs[..n];
      CollectAttrsErrPrefix(rs, n + 1);
    } else {
      assert rs[..n] == rs;
    }
  }

  function ByKey(a: Attribute): string {
    a.key
  }

  /** `create_virtual_attributes_node`: nothing for no attributes; otherwise
      the container, added without a parent, then one leaf per attribute in
      key order, each linked under the container. */
  function CreateVirtual(a: Nodes, attrs: seq<Attribute>): (Nodes, Option<nat>) {
    if attrs == [] then (a, None)
    else (AddChildrenTo(a + [VirtualNode()], |a|, Leaves(SortBy(attrs, ByKey))), Some(|a|))
  }

  /** `add_virtual_attributes_if_present`: the container becomes the first
      child of the element. */
  function AddVirtualIfPresent(a: Nodes, id: nat, attrs: seq<Attribute>): Nodes
    requires id < |a|
  {
    var (b, v) := CreateVirtual(a, attrs);
    if v.None? then b
    else
      AddChildrenOrder(a + [VirtualNode()], |a|, Leaves(SortBy(attrs, ByKey)));
      InsertFirstChildAt(b, id, v.value)
  }

  /** The `@attributes` container is created only for a non-empty attribute
      list; it becomes the element's first child, and no other existing node
      changes. */
  lemma VirtualFrame(a: Nodes, id: nat, attrs: seq<Attribute>)
    requires id < |a|
    ensures attrs == [] ==> AddVirtualIfPresent(a, id, attrs) == a
    ensures attrs != [] ==>
      var r := AddVirtualIfPresent(a, id, attrs);
      && |r| == |a| + 1 + |attrs|
      && r[id] == a[id].(children := [|a|] + a[id].children)
      && (forall i :: 0 <= i < |a| && i != id ==> r[i] == a[i])
  {
    if attrs != [] {
      AddChildrenOrder(a + [VirtualNode()], |a|, Leaves(SortBy(attrs, ByKey)));
    }
  }

  /** The container is node `|a|`, without a parent link, and its children
      are the next ids: one "attribute" leaf per attribute, in stable key
      order, labelled with the key, holding the value, linked to the
      container. */
  lemma VirtualNodes(a: Nodes, id: nat, attrs: seq<Attribute>)
    requires id < |a| && attrs != []
    ensures var r := AddVirtualIfPresent(a, id, attrs); var sorted := SortBy(attrs, ByKey);
      && |r| == |a| + 1 + |attrs|
      && r[|a|] == TreeNode("@attributes", "@attributes", [], Ids(|a| + 1, |attrs|), None)
      && forall k :: 0 <= k < |attrs| ==>
           r[|a| + 1 + k] == TreeNode(sorted[k].key, AttributeType, [Attribute("value", sorted[k].value)], [], Some(|a|))
  {
    var sorted := SortBy(attrs, ByKey);
    var b := AddChildrenTo(a + [VirtualNode()], |a|, Leaves(sorted));
    assert CreateVirtual(a, attrs) == (b, Some(|a|));
    LeavesUnder(a, id, sorted);
  }

  lemma LeavesUnder(a: Nodes, id: nat, sorted: seq<Attribute>)
    requires id < |a|
    ensures var b0 := a + [VirtualNode()]; var ns := Leaves(sorted);
      var r := InsertFirstChildAt(AddChildrenTo(b0, |a|, ns), id, |a|);
      && |r| == |a| + 1 + |sorted|
      && r[|a|] == TreeNode("@attributes", "@attributes", [], Ids(|a| + 1, |sorted|), None)
      && forall k :: 0 <= k < |sorted| ==>
           r[|a| + 1 + k] == TreeNode(sorted[k].key, AttributeType, [Attribute("value", sorted[k].value)], [], Some(|a|))
  {
    var ns := Leaves(sorted);
    var b0 := a + [VirtualNode()];
    var b := AddChildrenTo(b0, |a|, ns);
    var r := InsertFirstChildAt(b, id, |a|);
    assert b[|a|] == TreeNode("@attributes", "@attributes", [], Ids(|a| + 1, |sorted|), None) by {
      AddChildrenList(b0, |a|, ns);
      assert b0[|a|] == VirtualNode();
    }
    forall k | 0 <= k < |sorted|
      ensures r[|a| + 1 + k] == TreeNode(sorted[k].key, AttributeType, [Attribute("value", sorted[k].value)], [], Some(|a|))
    {
      assert r[|a| + 1 + k] == b[|b0| + k];
      assert b[|b0| + k] == ns[k].(parentId := Some(|a|)) by {
        AddChildrenNew(b0, |a|, ns);
      }
      assert ns[k] == AttrLeaf(sorted[k]);
    }
  }

  /** The attribute leaves are sorted by key, are a permutation of the
      element's attributes, and attributes sharing a key keep their source
      order. */
  lemma AttributeOrder(attrs: seq<Attribute>)
    ensures var sorted := SortBy(attrs, ByKey);
      && SortedBy(sorted, ByKey)
      && multiset(sorted) == multiset(attrs)
      && forall key :: WithKey(sorted, ByKey, key) == WithKey(attrs, ByKey, key)
  {
    SortBySpec(attrs, ByKey);
  }

  /** The builder's state: the arena and the stack of open elements. */
  datatype State = State(nodes: Nodes, stack: seq<nat>)

  function Init(): State {
    State([NewNode("root", "root")], [0])
  }

  /** Adds an element (Start or Empty): under the innermost open element with
      a parent link, or unattached when none is open; then its attributes. */
  function AddElement(s: State, name: string, attrs: seq<Attribute>): (r: (Nodes, nat)) {
    var node := WithAttributes(NewNode(name, "element"), attrs);
    var b := if s.stack != [] then AddChildNodeTo(s.nodes, s.stack[|s.stack| - 1], node) else s.nodes + [node];
    (AddVirtualIfPresent(b, |s.nodes|, attrs), |s.nodes|)
  }

  /** The effect of one event other than Eof. */
  function Step(s: State, e: Event): Result<State, string> {
    match e
    case Start(name, rs) =>
      (match CollectAttrs(rs)
       case Err(m) => Err(m)
       case Ok(attrs) =>
         var (c, id) := AddElement(s, name, attrs);
         Ok(State(c, s.stack + [id])))
    case Empty(name, rs) =>
      (match CollectAttrs(rs)
       case Err(m) => Err(m)
       case Ok(attrs) => Ok(State(AddElement(s, name, attrs).0, s.stack)))
    case End => Ok(if s.stack == [] then s else s.(stack := s.stack[..|s.stack| - 1]))
    case Text(u) =>
      (match u
       case Err(m) => Err(m)
       case Ok(t) =>
         var text := Trim(t);
         if text == [] then Ok(s)
         else
           var b := s.nodes + [TextNode(text)];
           Ok(s.(nodes := if s.stack != [] then AppendChildAt(b, s.stack[|s.stack| - 1], |s.nodes|) else b)))
    case ReadError(m) => Err(m)
    case _ => Ok(s)
  }

  function TextNode(text: string): (n: TreeNode)
    ensures n.caption == "text" && n.nodeType == "text" && n.attributes == [Attribute("content", text)]
    ensures n.children == [] && n.parentId == None
  {
    AddAttribute(NewNode("text", "text"), "content", text)
  }

  /** The events up to the first Eof (or the end), stopping at the first error. */
  function Run(s: State, evs: seq<Event>): Result<State, string>
    decreases |evs|
  {
    if evs == [] || evs[0].Eof? then Ok(s)
    else match Step(s, evs[0])
      case Err(m) => Err(m)
      case Ok(t) => Run(t, evs[1..])
  }

  /** Every open element names a node, and children follow their parents. */
  ghost predicate Valid(s: State) {
    |s.nodes| >= 1 && (forall j :: 0 <= j < |s.stack| ==> s.stack[j] < |s.nodes|) && ChildrenFollow(s.nodes)
  }

  lemma AddElementValid(s: State, name: string, attrs: seq<Attribute>)
    requires Valid(s)
    ensures var (c, id) := AddElement(s, name, attrs);
      id == |s.nodes| < |c| && Valid(State(c, s.stack + [id]))
  {
    var node := WithAttributes(NewNode(name, "element"), attrs);
    var b := if s.stack != [] then AddChildNodeTo(s.nodes, s.stack[|s.stack| - 1], node) else s.nodes + [node];
    PushKeepsFollow(s.nodes, node.(parentId := if s.stack != [] then Some(s.stack[|s.stack| - 1]) else None));
    if s.stack != [] {
      var p := s.stack[|s.stack| - 1];
      AppendChildKeepsFollow(s.nodes + [node.(parentId := Some(p))], p, |s.nodes|);
    } else {
      assert node.(parentId := None) == node;
    }
    assert ChildrenFollow(b);
    if attrs != [] {
      var sorted := SortBy(attrs, ByKey);
      var b0 := b + [VirtualNode()];
      PushKeepsFollow(b, VirtualNode());
      AddChildrenKeepFollow(b0, |b|, Leaves(sorted));
      AddChildrenOrder(b0, |b|, Leaves(sorted));
      InsertFirstKeepsFollow(AddChildrenTo(b0, |b|, Leaves(sorted)), |s.nodes|, |b|);
    }
  }

  /** Each event keeps the state valid: in particular the `unwrap`s on the
      innermost open element can never fail. */
  lemma StepValid(s: State, e: Event)
    requires Valid(s) && Step(s, e).Ok?
    ensures Valid(Step(s, e).value)
  {
    match e
    case Start(name, rs) => AddElementValid(s, name, CollectAttrs(rs).value);
    case Empty(name, rs) => AddElementValid(s, name, CollectAttrs(rs).value);
    case Text(u) =>
      var text := Trim(u.value);
      if text != [] {
        PushKeepsFollow(s.nodes, TextNode(text));
        if s.stack != [] {
          AppendChildKeepsFollow(s.nodes + [TextNode(text)], s.stack[|s.stack| - 1], |s.nodes|);
        }
      }
    case _ =>
  }

  lemma {:induction false} RunValid(s: State, evs: seq<Event>)
    requires Valid(s) && Run(s, evs).Ok?
    ensures Valid(Run(s, evs).value)
    decreases |evs|
  {
    if evs != [] && !evs[0].Eof? {
      StepValid(s, evs[0]);
      RunValid(Step(s, evs[0]).value, evs[1..]);
    }
  }

  /** A Start event adds an "element" node labelled with the tag name and
      carrying the attributes in source order, linked under the innermost
      open element (or unattached when none is open), and opens it. */
  lemma StartStep(s: State, name: string, rs: seq<Result<Attribute, string>>)
    requires Valid(s) && CollectAttrs(rs).Ok?
    ensures var attrs := CollectAttrs(rs).value; var t := Step(s, Start(name, rs)).value;
      && |t.nodes| == |s.nodes| + (if attrs == [] then 1 else 2 + |attrs|)
      && t.nodes[|s.nodes|] == TreeNode(name, "element", attrs,
           if attrs == [] then [] else [|s.nodes| + 1],
           if s.stack == [] then None else Some(s.stack[|s.stack| - 1]))
      && t.stack == s.stack + [|s.nodes|]
      && (s.stack != [] ==> var p := s.stack[|s.stack| - 1];
           t.nodes[p].children == s.nodes[p].children + [|s.nodes|])
  {
    ElementShape(s, name, CollectAttrs(rs).value);
  }

  lemma ElementShape(s: State, name: string, attrs: seq<Attribute>)
    requires Valid(s)
    ensures var c := AddElement(s, name, attrs).0;
      && AddElement(s, name, attrs).1 == |s.nodes|
      && |c| == |s.nodes| + (if attrs == [] then 1 else 2 + |attrs|)
      && c[|s.nodes|] == TreeNode(name, "element", attrs,
           if attrs == [] then [] else [|s.nodes| + 1],
           if s.stack == [] then None else Some(s.stack[|s.stack| - 1]))
      && (s.stack != [] ==> var p := s.stack[|s.stack| - 1];
           c[p].children == s.nodes[p].children + [|s.nodes|])
  {
    var node := WithAttributes(NewNode(name, "element"), attrs);
    var n := |s.nodes|;
    var b := if s.stack != [] then AddChildNodeTo(s.nodes, s.stack[|s.stack| - 1], node) else s.nodes + [node];
    var c := AddVirtualIfPresent(b, n, attrs);
    assert AddElement(s, name, attrs) == (c, n);
    assert |b| == n + 1;
    VirtualFrame(b, n, attrs);
    assert c[n] == b[n].(children := if attrs == [] then [] else [n + 1]);
    if s.stack != [] {
      var p := s.stack[|s.stack| - 1];
      assert b[n] == node.(parentId := Some(p));
      assert c[p] == b[p];
    } else {
      assert b[n] == node;
    }
  }

  /** An End event closes the innermost open element; with none open it does nothing. */
  lemma EndStep(s: State)
    ensures Step(s, End) == Ok(if s.stack == [] then s else State(s.nodes, s.stack[..|s.stack| - 1]))
  {
  }

  /** Text is trimmed; only non-empty text adds a "text" node, with no parent
      link, appended to the innermost open element's children. */
  lemma TextStep(s: State, t: string)
    requires Valid(s)
    ensures var r := Step(s, Text(Ok(t))).value;
      && (Trim(t) == [] ==> r == s)
      && (Trim(t) != [] ==>
           && |r.nodes| == |s.nodes| + 1
           && r.nodes[|s.nodes|] == TreeNode("text", "text", [Attribute("content", Trim(t))], [], None)
           && r.stack == s.stack
           && (s.stack != [] ==> var p := s.stack[|s.stack| - 1];
                r.nodes[p].children == s.nodes[p].children + [|s.nodes|]))
  {
  }

  /** A reader error or an attribute error aborts the whole parse. */
  lemma ErrorsAbort(s: State, e: Event, rest: seq<Event>)
    requires e.ReadError? || ((e.Start? || e.Empty?) && CollectAttrs(e.attrs).Err?) || (e.Text? && e.unescaped.Err?)
    ensures Run(s, [e] + rest).Err?
  {
    assert ([e] + rest)[0] == e;
  }

  /** `create_virtual_attributes_node`. */
  method CreateVirtualAttributesNode(tree: Tree, attrs: seq<Attribute>) returns (v: Option<nat>)
    modifies tree
    ensures (tree.nodes, v) == CreateVirtual(old(tree.nodes), attrs)
  {
    if attrs == [] {
      return None;
    }
    var sorted := SortBy(attrs, ByKey);
    var vid := tree.AddNode(VirtualNode());
    var a1 := tree.nodes;
    var ns := Leaves(sorted);
    var i := 0;
    while i < |sorted|
      invariant 0 <= i <= |sorted|
      invariant tree.nodes == AddChildrenTo(a1, vid, ns[..i])
    {
      assert ns[..i + 1][..i] == ns[..i];
      var _ := tree.AddChildNode(vid, AttrLeaf(sorted[i]));
      i := i + 1;
    }
    assert ns[..|sorted|] == ns;
    return Some(vid);
  }

  /** `add_virtual_attributes_if_present`. */
  method AddVirtualAttributesIfPresent(tree: Tree, id: nat, attrs: seq<Attribute>)
    requires id < |tree.nodes|
    modifies tree
    ensures tree.nodes == AddVirtualIfPresent(old(tree.nodes), id, attrs)
  {
    ghost var a := tree.nodes;
    var v := CreateVirtualAttributesNode(tree, attrs);
    if v.Some? {
      AddChildrenOrder(a + [VirtualNode()], |a|, Leaves(SortBy(attrs, ByKey)));
      tree.InsertFirstChild(id, v.value);
    }
  }

  /** The attributes of a tag, stopping at the first error. */
  method ReadAttrs(rs: seq<Result<Attribute, string>>) returns (r: Result<seq<Attribute>, string>)
    ensures r == CollectAttrs(rs)
  {
    var attrs: seq<Attribute> := [];
    var i := 0;
    while i < |rs|
      invariant 0 <= i <= |rs|
      invariant CollectAttrs(rs[..i]) == Ok(attrs)
    {
      assert rs[..i + 1][..i] == rs[..i];
      if rs[i].Err? {
        CollectAttrsErrPrefix(rs, i + 1);
        return Err(rs[i].error);
      }
      attrs := attrs + [rs[i].value];
      i := i + 1;
    }
    assert rs[..i] == rs;
    return Ok(attrs);
  }

  /** Adds an element node for a Start or Empty tag and returns its id. */
  method AddElementNode(tree: Tree, stack: seq<nat>, name: string, attrs: seq<Attribute>) returns (id: nat)
    requires Valid(State(tree.nodes, stack))
    modifies tree
    ensures (tree.nodes, id) == AddElement(State(old(tree.nodes), stack), name, attrs)
  {
    var node := WithAttributes(NewNode(name, "element"), attrs);
    if stack != [] {
      id := tree.AddChildNode(stack[|stack| - 1], node);
    } else {
      id := tree.AddNode(node);
    }
    AddVirtualAttributesIfPresent(tree, id, attrs);
  }

  /** `XmlParser::parse` over the reader's events. */
  method Parse(events: seq<Event>) returns (r: Result<Tree, XtvError>)
    ensures Run(Init(), events).Err? ==> r == Err(XmlParse(Run(Init(), events).error))
    ensures Run(Init(), events).Ok? ==> r.Ok? && fresh(r.value) && r.value.nodes == Run(Init(), events).value.nodes
  {
    var tree := new Tree(NewNode("root", "root"));
    var stack: seq<nat> := [tree.rootId];
    var i := 0;
    assert Valid(Init());
    while i < |events| && !events[i].Eof?
      invariant 0 <= i <= |events|
      invariant Valid(State(tree.nodes, stack))
      invariant Run(State(tree.nodes, stack), events[i..]) == Run(Init(), events)
    {
      ghost var s := State(tree.nodes, stack);
      assert events[i..][0] == events[i] && events[i..][1..] == events[i + 1..];
      match events[i] {
        case Start(name, rs) =>
          var attrs := ReadAttrs(rs);
          if attrs.Err? {
            return Err(XmlParse(attrs.error));
          }
          AddElementValid(s, name, attrs.value);
          var id := AddElementNode(tree, stack, name, attrs.value);
          stack := stack + [id];
        case Empty(name, rs) =>
          var attrs := ReadAttrs(rs);
          if attrs.Err? {
            return Err(XmlParse(attrs.error));
          }
          AddElementValid(s, name, attrs.value);
          var _ := AddElementNode(tree, stack, name, attrs.value);
        case End =>
          if stack != [] {
            stack := stack[..|stack| - 1];
          }
        case Text(u) =>
          if u.Err? {
            return Err(XmlParse(u.error));
          }
          var text := Trim(u.value);
          if text != [] {
            StepValid(s, events[i]);
            var textId := tree.AddNode(TextNode(text));
            if stack != [] {
              tree.AppendChild(stack[|stack| - 1], textId);
            }
          }
        case ReadError(m) =>
          return Err(XmlParse(m));
        case _ =>
      }
      i := i + 1;
    }
    if i < |events| {
      assert events[i..][0] == events[i];
    }
    return Ok(tree);
  }
}
