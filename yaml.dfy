/** The YAML tree builder (src/parser/yaml.rs). The decoded document, which
    serde_yaml produces, is a `Yaml` value. Unlike the JSON builder, this one
    adds nodes with `add_node` and then pushes the id onto the parent's
    children, so no node it creates has a parent link. */
module YamlParser {
  import opened Wrappers
  import opened Node
  import opened Arena
  import opened Templates
  import opened Text

  datatype Yaml =
    | Mapping(entries: seq<Entry>)
    | Sequence(items: seq<Yaml>)
    | String(s: string)
    /** A number, as the text `Number::to_string` renders it. */
    | Number(text: string)
    | Bool(b: bool)
    | Null
    /** A value with a tag, the tag as its `to_string` renders it. */
    | Tagged(tag: string, value: Yaml)

  datatype Entry = Entry(key: Yaml, value: Yaml)

  /** Debug formatting of a key, for the keys that are neither strings,
      numbers, booleans nor null. */
  type DebugFormat = Yaml -> string

  /** How a mapping key becomes a label. */
  function KeyText(k: Yaml, debug: DebugFormat): string {
    match k
    case String(s) => s
    case Number(t) => t
    case Bool(b) => if b then "true" else "false"
    case Null => "null"
    case _ => debug(k)
  }

  /** The text of a scalar's `value` attribute. */
  function ScalarText(v: Yaml): string
    requires v.String? || v.Number? || v.Bool? || v.Null?
  {
    match v
    case String(s) => s
    case Number(t) => t
    case Bool(b) => if b then "true" else "false"
    case Null => "null"
  }

  /** The nodes `convert_value(tree, parent, v, key)` adds. */
  function YamlGen(v: Yaml, key: string, debug: DebugFormat): (g: Gen)
    ensures g.caption == key
    decreases v
  {
    match v
    case Mapping(es) => Gen(key, "mapping", [Attribute("size", SizeText(|es|, "fields"))], EntryGens(es, debug))
    case Sequence(xs) => Gen(key, "sequence", [Attribute("size", SizeText(|xs|, "items"))], ItemGens(xs, 0, debug))
    case Tagged(t, inner) => Gen(key, "tagged", [Attribute("tag", t)], [YamlGen(inner, "value", debug)])
    case _ => Gen(key, AttributeType, [Attribute("value", ScalarText(v))], [])
  }

  /** An entry's value, labelled with the entry's key text. */
  function EntryGen(e: Entry, debug: DebugFormat): (g: Gen)
    ensures g == YamlGen(e.value, KeyText(e.key, debug), debug)
    decreases e
  {
    YamlGen(e.value, KeyText(e.key, debug), debug)
  }

  /** One template per entry. */
  function EntryGens(es: seq<Entry>, debug: DebugFormat): (gs: seq<Gen>)
    ensures |gs| == |es|
    ensures forall i :: 0 <= i < |es| ==> gs[i] == EntryGen(es[i], debug)
    decreases es
  {
    if es == [] then [] else [EntryGen(es[0], debug)] + EntryGens(es[1..], debug)
  }

  /** One template per item, labelled `[base + i]`. */
  function ItemGens(xs: seq<Yaml>, base: nat, debug: DebugFormat): (gs: seq<Gen>)
    ensures |gs| == |xs|
    ensures forall i :: 0 <= i < |xs| ==> gs[i] == YamlGen(xs[i], IndexLabel(base + i), debug)
    decreases xs
  {
    if xs == [] then [] else [YamlGen(xs[0], IndexLabel(base), debug)] + ItemGens(xs[1..], base + 1, debug)
  }

  /** What the top level puts under the root: a mapping's entries, a
      sequence's items, or the whole value labelled "value". */
  function TopGens(v: Yaml, debug: DebugFormat): seq<Gen> {
    match v
    case Mapping(es) => EntryGens(es, debug)
    case Sequence(xs) => ItemGens(xs, 0, debug)
    case _ => [YamlGen(v, "value", debug)]
  }

  function YamlTree(v: Yaml, debug: DebugFormat): Nodes {
    EmitKids([NewNode("root", "root")], 0, TopGens(v, debug), false)
  }

  /** A scalar key is labelled with the same text the scalar would show as a value. */
  lemma ScalarKeyLabel(k: Yaml, debug: DebugFormat)
    requires k.String? || k.Number? || k.Bool? || k.Null?
    ensures KeyText(k, debug) == ScalarText(k)
    ensures YamlGen(k, "value", debug).attributes == [Attribute("value", KeyText(k, debug))]
  {
  }

  /** A tagged value gives a "tagged" node with its tag and exactly one child,
      the inner value labelled "value". */
  lemma TaggedShape(a: Nodes, p: nat, t: string, inner: Yaml, key: string, debug: DebugFormat)
    requires p < |a|
    ensures var r := Emit(a, p, YamlGen(Tagged(t, inner), key, debug), false);
      && |r| >= |a| + 2
      && r[|a|].nodeType == "tagged"
      && r[|a|].attributes == [Attribute("tag", t)]
      && r[|a|].children == [|a| + 1]
      && r[|a| + 1].caption == "value"
  {
    var g := YamlGen(Tagged(t, inner), key, debug);
    EmitShape(a, p, g, false);
    assert KidStarts(|a| + 1, g.kids) == [|a| + 1];
    var b := Attach(a, p, NodeOf(g), false);
    EmitKidsShape(b, |a|, [], false);
    assert g.kids == [] + [g.kids[0]];
    EmitShape(b, |a|, g.kids[0], false);
    var r := Emit(a, p, g, false);
    assert r == Emit(EmitKids(b, |a|, [], false), |a|, g.kids[0], false);
  }

  /** No node of the built tree has a parent link, the root's children
      are the top-level nodes, and every child comes after its parent. */
  lemma YamlTreeShape(v: Yaml, debug: DebugFormat)
    ensures var a := YamlTree(v, debug);
      && |a| == 1 + KidsSize(TopGens(v, debug))
      && (forall i :: 0 <= i < |a| ==> a[i].parentId == None)
      && a[0].children == KidStarts(1, TopGens(v, debug))
      && ChildrenFollow(a)
  {
    var r0, gs := [NewNode("root", "root")], TopGens(v, debug);
    var a := EmitKids(r0, 0, gs, false);
    assert |a| == 1 + KidsSize(gs) && a[0].children == KidStarts(1, gs) by {
      EmitKidsShape(r0, 0, gs, false);
      assert a[0] == a[..1][0];
    }
    assert forall i :: 1 <= i < |a| ==> a[i].parentId == None by {
      EmitKidsUnlinked(r0, 0, gs);
    }
    assert a[0].parentId == None by {
      EmitKidsParentsFrame(r0, 0, gs, false, 0);
    }
    assert ChildrenFollow(a) by {
      EmitKidsKeepFollow(r0, 0, gs, false);
    }
  }

  /** `convert_value`: the parent must exist (the source unwraps it). */
  method ConvertValue(tree: Tree, p: nat, v: Yaml, key: string, debug: DebugFormat)
    requires p < |tree.nodes|
    modifies tree
    ensures tree.nodes == Emit(old(tree.nodes), p, YamlGen(v, key, debug), false)
    ensures |tree.nodes| > |old(tree.nodes)|
    decreases v, 1
  {
    match v {
      case Mapping(es) =>
        var node := AddAttribute(NewNode(key, "mapping"), "size", SizeText(|es|, "fields"));
        var id := tree.AddNode(node);
        tree.AppendChild(p, id);
        ConvertEntries(tree, id, v, debug);
      case Sequence(xs) =>
        var node := AddAttribute(NewNode(key, "sequence"), "size", SizeText(|xs|, "items"));
        var id := tree.AddNode(node);
        tree.AppendChild(p, id);
        ConvertItems(tree, id, xs, debug);
      case Tagged(t, inner) =>
        ghost var g := YamlGen(v, key, debug);
        ghost var b := Attach(tree.nodes, p, NodeOf(g), false);
        var node := AddAttribute(NewNode(key, "tagged"), "tag", t);
        var id := tree.AddNode(node);
        tree.AppendChild(p, id);
        EmitKidsStep(b, id, g.kids, 0, false);
        assert g.kids[..0] == [] && g.kids[..1] == g.kids;
        ConvertValue(tree, id, inner, "value", debug);
      case _ =>
        var id := tree.AddNode(ValueLeaf(key, ScalarText(v)));
        tree.AppendChild(p, id);
    }
  }

  /** The loop over a mapping's entries: one `convert_value` per entry,
      under `q`, labelled with the entry's key text. */
  method ConvertEntries(tree: Tree, q: nat, m: Yaml, debug: DebugFormat)
    requires m.Mapping? && q < |tree.nodes|
    modifies tree
    ensures tree.nodes == EmitKids(old(tree.nodes), q, EntryGens(m.entries, debug), false)
    ensures |tree.nodes| >= |old(tree.nodes)|
    decreases m, 0
  {
    var es := m.entries;
    var gs := EntryGens(es, debug);
    var a0 := tree.nodes;
    for i := 0 to |es|
      invariant q < |tree.nodes| && |tree.nodes| >= |a0|
      invariant tree.nodes == EmitKids(a0, q, gs[..i], false)
    {
      EmitKidsStep(a0, q, gs, i, false);
      var e := es[i];
      assert e in m.entries;
      ConvertValue(tree, q, e.value, KeyText(e.key, debug), debug);
    }
    assert gs[..|es|] == gs;
  }

  /** The loop over a sequence's items: one `convert_value` per item, under
      `q`, labelled `[i]`. */
  method ConvertItems(tree: Tree, q: nat, xs: seq<Yaml>, debug: DebugFormat)
    requires q < |tree.nodes|
    modifies tree
    ensures tree.nodes == EmitKids(old(tree.nodes), q, ItemGens(xs, 0, debug), false)
    ensures |tree.nodes| >= |old(tree.nodes)|
    decreases xs, 0
  {
    var gs := ItemGens(xs, 0, debug);
    var a0 := tree.nodes;
    for i := 0 to |xs|
      invariant q < |tree.nodes| && |tree.nodes| >= |a0|
      invariant tree.nodes == EmitKids(a0, q, gs[..i], false)
    {
      EmitKidsStep(a0, q, gs, i, false);
      ConvertValue(tree, q, xs[i], IndexLabel(i), debug);
    }
    assert gs[..|xs|] == gs;
  }

  /** Adds the top-level nodes under the root (node 0). */
  method ConvertTop(tree: Tree, v: Yaml, debug: DebugFormat)
    requires |tree.nodes| >= 1
    modifies tree
    ensures tree.nodes == EmitKids(old(tree.nodes), 0, TopGens(v, debug), false)
  {
    match v {
      case Mapping(es) =>
        ConvertEntries(tree, 0, v, debug);
      case Sequence(xs) =>
        ConvertItems(tree, 0, xs, debug);
      case _ =>
        ghost var a0 := tree.nodes;
        EmitKidsStep(a0, 0, TopGens(v, debug), 0, false);
        ConvertValue(tree, 0, v, "value", debug);
        assert TopGens(v, debug)[..1] == TopGens(v, debug);
    }
  }

  /** `YamlParser::parse`, given what the decoder made of the text. */
  method Parse(decoded: Result<Yaml, string>, debug: DebugFormat) returns (r: Result<Tree, XtvError>)
    ensures decoded.Err? ==> r == Err(YamlParse(decoded.error))
    ensures decoded.Ok? ==> r.Ok? && fresh(r.value) && r.value.nodes == YamlTree(decoded.value, debug)
  {
    if decoded.Err? {
      return Err(YamlParse(decoded.error));
    }
    var tree := new Tree(NewNode("root", "root"));
    ConvertTop(tree, decoded.value, debug);
    return Ok(tree);
  }
}
