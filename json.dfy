/** The JSON tree builder (src/parser/json.rs). The decoded document, which
    serde_json produces, is a `Json` value; members keep the order the
    decoder yields them in. */
module JsonParser {
  import opened Wrappers
  import opened Node
  import opened Arena
  import opened Templates
  import opened Text

  datatype Json =
    | Object(members: seq<Member>)
    | Array(items: seq<Json>)
    | String(s: string)
    /** A number, as the text `Number::to_string` renders it. */
    | Number(text: string)
    | Bool(b: bool)
    | Null

  datatype Member = Member(key: string, value: Json)

  /** The nodes `convert_value(tree, parent, v, key)` adds: objects and arrays
      become "object"/"array" nodes with a size attribute and one child per
      member or item, scalars become "attribute" leaves. */
  function JsonGen(v: Json, key: string): (g: Gen)
    ensures g.caption == key
    decreases v, 1
  {
    match v
    case Object(ms) => Gen(key, "object", [Attribute("size", SizeText(|ms|, "fields"))], MemberGens(ms))
    case Array(xs) => Gen(key, "array", [Attribute("size", SizeText(|xs|, "items"))], ItemGens(xs))
    case String(s) => Gen(key, AttributeType, [Attribute("value", s)], [])
    case Number(t) => Gen(key, AttributeType, [Attribute("value", t)], [])
    case Bool(b) => Gen(key, AttributeType, [Attribute("value", if b then "true" else "false")], [])
    case Null => Gen(key, AttributeType, [Attribute("value", "null")], [])
  }

  /** One template per member, labelled with the member's key. */
  function MemberGens(ms: seq<Member>): (gs: seq<Gen>)
    ensures |gs| == |ms|
    ensures forall i :: 0 <= i < |ms| ==> gs[i] == JsonGen(ms[i].value, ms[i].key)
    decreases ms, 0
  {
    if ms == [] then [] else [JsonGen(ms[0].value, ms[0].key)] + MemberGens(ms[1..])
  }

  /** One template per item, labelled `[i]` with its zero-based position. */
  function ItemGens(xs: seq<Json>): (gs: seq<Gen>)
    ensures |gs| == |xs|
    ensures forall i :: 0 <= i < |xs| ==> gs[i] == JsonGen(xs[i], IndexLabel(i))
    decreases xs, 1
  {
    ItemGensFrom(xs, 0)
  }

  /** Items labelled from `[base]` on. */
  function ItemGensFrom(xs: seq<Json>, base: nat): (gs: seq<Gen>)
    ensures |gs| == |xs|
    ensures forall i :: 0 <= i < |xs| ==> gs[i] == JsonGen(xs[i], IndexLabel(base + i))
    decreases xs, 0
  {
    if xs == [] then [] else [JsonGen(xs[0], IndexLabel(base))] + ItemGensFrom(xs[1..], base + 1)
  }

  /** The number of values in a document, counted independently of the builder. */
  function Count(v: Json): nat
    decreases v, 1
  {
    match v
    case Object(ms) => 1 + CountMembers(ms)
    case Array(xs) => 1 + CountItems(xs)
    case _ => 1
  }

  function CountMembers(ms: seq<Member>): nat
    decreases ms, 0
  {
    if ms == [] then 0 else Count(ms[0].value) + CountMembers(ms[1..])
  }

  function CountItems(xs: seq<Json>): nat
    decreases xs, 0
  {
    if xs == [] then 0 else Count(xs[0]) + CountItems(xs[1..])
  }

  /** The templates a document's top level puts directly under the root: an
      object's members, an array's items labelled `[i]`, or the one scalar
      labelled "value". */
  function TopGens(v: Json): (gs: seq<Gen>)
  {
    match v
    case Object(ms) => MemberGens(ms)
    case Array(xs) => ItemGens(xs)
    case _ => [JsonGen(v, "value")]
  }

  function RootNode(): (n: TreeNode)
    ensures n.caption == "root" && n.nodeType == "root" && n.children == [] && n.parentId == None
  {
    NewNode("root", "root")
  }

  /** The arena `JsonParser::parse` returns for a decoded document. */
  function JsonTree(v: Json): Nodes {
    EmitKids([RootNode()], 0, TopGens(v), true)
  }

  /** Exactly one node is created per value below the top level. */
  lemma {:induction false} JsonGenSize(v: Json, key: string)
    ensures GenSize(JsonGen(v, key)) == Count(v)
    decreases v, 1
  {
    match v
    case Object(ms) => MemberGensSize(ms);
    case Array(xs) => ItemGensSize(xs, 0);
    case _ =>
  }

  lemma {:induction false} MemberGensSize(ms: seq<Member>)
    ensures KidsSize(MemberGens(ms)) == CountMembers(ms)
    decreases ms, 0
  {
    if ms != [] {
      var gs := MemberGens(ms);
      MemberGensSize(ms[1..]);
      JsonGenSize(ms[0].value, ms[0].key);
      KidsSizeCons(gs);
      assert gs[1..] == MemberGens(ms[1..]);
    }
  }

  lemma {:induction false} ItemGensSize(xs: seq<Json>, base: nat)
    ensures KidsSize(ItemGensFrom(xs, base)) == CountItems(xs)
    decreases xs, 0
  {
    if xs != [] {
      var gs := ItemGensFrom(xs, base);
      ItemGensSize(xs[1..], base + 1);
      JsonGenSize(xs[0], IndexLabel(base));
      KidsSizeCons(gs);
    }
  }

  lemma {:induction false} KidsSizeCons(gs: seq<Gen>)
    requires gs != []
    ensures KidsSize(gs) == GenSize(gs[0]) + KidsSize(gs[1..])
  {
    if |gs| > 1 {
      KidsSizeCons(gs[..|gs| - 1]);
      assert gs[..|gs| - 1][1..] == gs[1..][..|gs[1..]| - 1];
    }
  }

  /** The built tree is linked (every node but the root names its parent,
      which precedes it and lists it as a child), holds one node per value
      plus the root, and the root's children are the top-level templates'
      nodes, labelled by key, by `[i]`, or "value". */
  lemma JsonTreeShape(v: Json)
    ensures var a := JsonTree(v);
      && Linked(a)
      && |a| == 1 + KidsSize(TopGens(v))
      && a[0].children == KidStarts(1, TopGens(v))
  {
    assert Linked([RootNode()]);
    EmitKidsKeepLinked([RootNode()], 0, TopGens(v));
    EmitKidsShape([RootNode()], 0, TopGens(v), true);
    var a := JsonTree(v);
    assert a[0] == a[..1][0];
  }

  /** A document with `n` top-level members or items gives the root `n`
      children; a scalar gives it one. */
  lemma RootChildCount(v: Json)
    ensures JsonTree(v) != [] && |JsonTree(v)[0].children| == match v
      case Object(ms) => |ms|
      case Array(xs) => |xs|
      case _ => 1
  {
    JsonTreeShape(v);
  }

  /** `convert_value`: adds the nodes of `v` under `p`. */
  method ConvertValue(tree: Tree, p: nat, v: Json, key: string)
    modifies tree
    ensures tree.nodes == Emit(old(tree.nodes), p, JsonGen(v, key), true)
    decreases v, 1
  {
    match v {
      case Object(ms) =>
        var node := AddAttribute(NewNode(key, "object"), "size", SizeText(|ms|, "fields"));
        var id := tree.AddChildNode(p, node);
        ConvertMembers(tree, id, ms);
      case Array(xs) =>
        var node := AddAttribute(NewNode(key, "array"), "size", SizeText(|xs|, "items"));
        var id := tree.AddChildNode(p, node);
        ConvertItems(tree, id, xs);
      case String(s) =>
        var _ := tree.AddChildNode(p, ValueLeaf(key, s));
      case Number(t) =>
        var _ := tree.AddChildNode(p, ValueLeaf(key, t));
      case Bool(b) =>
        var _ := tree.AddChildNode(p, ValueLeaf(key, if b then "true" else "false"));
      case Null =>
        var _ := tree.AddChildNode(p, ValueLeaf(key, "null"));
    }
  }

  /** The loop over an object's members: one `convert_value` per member,
      under `q`, keyed by the member's key. */
  method ConvertMembers(tree: Tree, q: nat, ms: seq<Member>)
    modifies tree
    ensures tree.nodes == EmitKids(old(tree.nodes), q, MemberGens(ms), true)
    decreases ms, 0
  {
    var gs := MemberGens(ms);
    var a0 := tree.nodes;
    for i := 0 to |ms|
      invariant tree.nodes == EmitKids(a0, q, gs[..i], true)
    {
      EmitKidsStep(a0, q, gs, i, true);
      ConvertValue(tree, q, ms[i].value, ms[i].key);
    }
    assert gs[..|ms|] == gs;
  }

  /** The loop over an array's items: one `convert_value` per item, under
      `q`, labelled `[i]`. */
  method ConvertItems(tree: Tree, q: nat, xs: seq<Json>)
    modifies tree
    ensures tree.nodes == EmitKids(old(tree.nodes), q, ItemGens(xs), true)
    decreases xs, 0
  {
    var gs := ItemGens(xs);
    var a0 := tree.nodes;
    for i := 0 to |xs|
      invariant tree.nodes == EmitKids(a0, q, gs[..i], true)
    {
      EmitKidsStep(a0, q, gs, i, true);
      ConvertValue(tree, q, xs[i], IndexLabel(i));
    }
    assert gs[..|xs|] == gs;
  }

  /** The top level of `JsonParser::parse`: an object's members and an
      array's items go directly under `p`, a scalar becomes one `value`
      child. */
  method ConvertAll(tree: Tree, p: nat, v: Json)
    modifies tree
    ensures tree.nodes == EmitKids(old(tree.nodes), p, TopGens(v), true)
  {
    match v {
      case Object(ms) =>
        ConvertMembers(tree, p, ms);
      case Array(xs) =>
        ConvertItems(tree, p, xs);
      case _ =>
        ghost var a0 := tree.nodes;
        EmitKidsStep(a0, p, TopGens(v), 0, true);
        ConvertValue(tree, p, v, "value");
        assert TopGens(v)[..1] == TopGens(v);
    }
  }

  /** `JsonParser::parse`, given what the decoder made of the text: a decode
      error is reported as `JsonParse`, a document becomes `JsonTree`. */
  method Parse(decoded: Result<Json, string>) returns (r: Result<Tree, XtvError>)
    ensures decoded.Err? ==> r == Err(JsonParse(decoded.error))
    ensures decoded.Ok? ==> r.Ok? && fresh(r.value) && r.value.nodes == JsonTree(decoded.value) && r.value.rootId == 0
  {
    if decoded.Err? {
      return Err(JsonParse(decoded.error));
    }
    var tree := new Tree(RootNode());
    ConvertAll(tree, tree.rootId, decoded.value);
    return Ok(tree);
  }
}
