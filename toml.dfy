/** The TOML tree builder (src/parser/toml.rs). The decoded document, which
    the toml crate produces, is a `Toml` value; table entries keep the order
    the decoder yields them in. */
module TomlParser {
  import opened Wrappers
  import opened Node
  import opened Arena
  import opened Templates
  import opened Text

  datatype Toml =
    | Table(entries: seq<Entry>)
    | Array(items: seq<Toml>)
    | String(s: string)
    | Integer(i: int)
    /** A float, as the text its `to_string` renders it. */
    | Float(text: string)
    | Boolean(b: bool)
    /** A datetime, as the text its `to_string` renders it. */
    | Datetime(text: string)

  datatype Entry = Entry(key: string, value: Toml)

  /** The rendered text of a scalar. */
  function ScalarText(v: Toml): string
    requires !v.Table? && !v.Array?
  {
    match v
    case String(s) => s
    case Integer(i) => IntToString(i)
    case Float(t) => t
    case Boolean(b) => if b then "true" else "false"
    case Datetime(t) => t
  }

  /** The nodes `convert_value(tree, parent, v, key)` adds. */
  function TomlGen(v: Toml, key: string): (g: Gen)
    ensures g.caption == key
    decreases v
  {
    match v
    case Table(es) => Gen(key, "table", [Attribute("size", SizeText(|es|, "fields"))], EntryGens(es))
    case Array(xs) => Gen(key, "array", [Attribute("size", SizeText(|xs|, "items"))], ItemGens(xs, 0))
    case _ => Gen(key, AttributeType, [Attribute("value", ScalarText(v))], [])
  }

  function EntryGen(e: Entry): (g: Gen)
    ensures g == TomlGen(e.value, e.key)
    decreases e
  {
    TomlGen(e.value, e.key)
  }

  function EntryGens(es: seq<Entry>): (gs: seq<Gen>)
    ensures |gs| == |es|
    ensures forall i :: 0 <= i < |es| ==> gs[i] == EntryGen(es[i])
    decreases es
  {
    if es == [] then [] else [EntryGen(es[0])] + EntryGens(es[1..])
  }

  function ItemGens(xs: seq<Toml>, base: nat): (gs: seq<Gen>)
    ensures |gs| == |xs|
    ensures forall i :: 0 <= i < |xs| ==> gs[i] == TomlGen(xs[i], IndexLabel(base + i))
    decreases xs
  {
    if xs == [] then [] else [TomlGen(xs[0], IndexLabel(base))] + ItemGens(xs[1..], base + 1)
  }

  /** Only a top-level table contributes: its entries go under the root. */
  function TopGens(v: Toml): seq<Gen> {
    if v.Table? then EntryGens(v.entries) else []
  }

  function TomlTree(v: Toml): Nodes {
    EmitKids([NewNode("root", "root")], 0, TopGens(v), true)
  }

  /** The built tree is linked, and the root has one child per top-level
      entry, labelled with the entry's key; a non-table document gives a
      lone root. */
  lemma TomlTreeShape(v: Toml)
    ensures var a := TomlTree(v);
      && Linked(a)
      && a[0].children == KidStarts(1, TopGens(v))
      && |a[0].children| == (if v.Table? then |v.entries| else 0)
      && (!v.Table? ==> a == [NewNode("root", "root")])
  {
    var r0 := [NewNode("root", "root")];
    assert Linked(r0);
    EmitKidsKeepLinked(r0, 0, TopGens(v));
    EmitKidsShape(r0, 0, TopGens(v), true);
    var a := TomlTree(v);
    assert a[0] == a[..1][0];
  }

  /** An integer is shown in decimal, with a minus sign when negative. */
  lemma IntegerLeaf(a: Nodes, p: nat, i: int, key: string)
    requires p < |a|
    ensures var r := Emit(a, p, TomlGen(Integer(i), key), true);
      && |r| == |a| + 1
      && r[|a|] == TreeNode(key, AttributeType, [Attribute("value", IntToString(i))], [], Some(p))
  {
    EmitShape(a, p, TomlGen(Integer(i), key), true);
  }

  method ConvertValue(tree: Tree, p: nat, v: Toml, key: string)
    modifies tree
    ensures tree.nodes == Emit(old(tree.nodes), p, TomlGen(v, key), true)
    decreases v
  {
    var g := TomlGen(v, key);
    var a0 := tree.nodes;
    var b := Attach(a0, p, NodeOf(g), true);
    match v {
      case Table(es) =>
        var node := AddAttribute(NewNode(key, "table"), "size", SizeText(|es|, "fields"));
        var id := tree.AddChildNode(p, node);
        var i := 0;
        while i < |es|
          invariant 0 <= i <= |es|
          invariant tree.nodes == EmitKids(b, id, g.kids[..i], true)
        {
          EmitKidsStep(b, id, g.kids, i, true);
          ConvertValue(tree, id, es[i].value, es[i].key);
          i := i + 1;
        }
        assert g.kids[..|es|] == g.kids;
      case Array(xs) =>
        var node := AddAttribute(NewNode(key, "array"), "size", SizeText(|xs|, "items"));
        var id := tree.AddChildNode(p, node);
        var i := 0;
        while i < |xs|
          invariant 0 <= i <= |xs|
          invariant tree.nodes == EmitKids(b, id, g.kids[..i], true)
        {
          EmitKidsStep(b, id, g.kids, i, true);
          ConvertValue(tree, id, xs[i], IndexLabel(i));
          i := i + 1;
        }
        assert g.kids[..|xs|] == g.kids;
      case _ =>
        var _ := tree.AddChildNode(p, ValueLeaf(key, ScalarText(v)));
    }
  }

  /** `TomlParser::parse`, given what the decoder made of the text. */
  method Parse(decoded: Result<Toml, string>) returns (r: Result<Tree, XtvError>)
    ensures decoded.Err? ==> r == Err(TomlParse(decoded.error))
    ensures decoded.Ok? ==> r.Ok? && fresh(r.value) && r.value.nodes == TomlTree(decoded.value)
  {
    if decoded.Err? {
      return Err(TomlParse(decoded.error));
    }
    var tree := new Tree(NewNode("root", "root"));
    var v := decoded.value;
    if v.Table? {
      var gs := TopGens(v);
      var a0 := tree.nodes;
      var i := 0;
      while i < |v.entries|
        invariant 0 <= i <= |v.entries|
        invariant tree.nodes == EmitKids(a0, 0, gs[..i], true)
      {
        EmitKidsStep(a0, 0, gs, i, true);
        ConvertValue(tree, 0, v.entries[i].value, v.entries[i].key);
        i := i + 1;
      }
      assert gs[..|v.entries|] == gs;
    }
    return Ok(tree);
  }
}
