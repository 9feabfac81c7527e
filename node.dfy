/** A node of the viewer's tree (src/tree/node.rs): a caption, a type name,
    key/value attributes, child ids into the arena, and an optional parent id. */
module Node {
  import opened Wrappers

  datatype Attribute = Attribute(key: string, value: string)

  /** `label` is a keyword here, so the node's label is called `caption`. */
  datatype TreeNode = TreeNode(
    caption: string,
    nodeType: string,
    attributes: seq<Attribute>,
    children: seq<nat>,
    parentId: Option<nat>)

  const VirtualAttributesType: string := "@attributes"
  const AttributeType: string := "attribute"

  /** `TreeNode::new`: no attributes, no children, no parent. */
  function NewNode(caption: string, nodeType: string): (n: TreeNode)
    ensures n.caption == caption && n.nodeType == nodeType
    ensures n.attributes == [] && n.children == [] && n.parentId == None
  {
    TreeNode(caption, nodeType, [], [], None)
  }

  /** `with_attributes`: the attribute list is replaced wholesale. */
  function WithAttributes(n: TreeNode, attributes: seq<Attribute>): (r: TreeNode)
    ensures r.attributes == attributes
    ensures r.(attributes := n.attributes) == n
  {
    n.(attributes := attributes)
  }

  /** `add_attribute`: one pair appended at the end, nothing else changes. */
  function AddAttribute(n: TreeNode, key: string, value: string): (r: TreeNode)
    ensures |r.attributes| == |n.attributes| + 1
    ensures r.attributes[..|n.attributes|] == n.attributes
    ensures r.attributes[|n.attributes|] == Attribute(key, value)
    ensures r.(attributes := n.attributes) == n
  {
    n.(attributes := n.attributes + [Attribute(key, value)])
  }

  /** `add_child`: one id appended at the end, nothing else changes. */
  function AddChild(n: TreeNode, childId: nat): (r: TreeNode)
    ensures |r.children| == |n.children| + 1
    ensures r.children[..|n.children|] == n.children
    ensures r.children[|n.children|] == childId
    ensures r.(children := n.children) == n
  {
    n.(children := n.children + [childId])
  }

  predicate HasChildren(n: TreeNode) {
    n.children != []
  }

  predicate IsVirtualAttributes(n: TreeNode) {
    n.nodeType == VirtualAttributesType
  }

  predicate IsAttribute(n: TreeNode) {
    n.nodeType == AttributeType
  }

  /** An "attribute" leaf carrying a single `value` attribute, the shape every
      builder uses for scalars and for the entries of an `@attributes` node. */
  function ValueLeaf(caption: string, value: string): (n: TreeNode)
    ensures IsAttribute(n) && !HasChildren(n)
    ensures n.caption == caption && n.attributes == [Attribute("value", value)] && n.parentId == None
  {
    AddAttribute(NewNode(caption, AttributeType), "value", value)
  }

  /** The node of one attribute inside `@attributes`. */
  function AttrLeaf(a: Attribute): TreeNode {
    ValueLeaf(a.key, a.value)
  }

  function Leaves(attrs: seq<Attribute>): (ns: seq<TreeNode>)
    ensures |ns| == |attrs| && forall k :: 0 <= k < |attrs| ==> ns[k] == AttrLeaf(attrs[k])
  {
    if attrs == [] then [] else Leaves(attrs[..|attrs| - 1]) + [AttrLeaf(attrs[|attrs| - 1])]
  }

  function VirtualNode(): TreeNode {
    NewNode("@attributes", VirtualAttributesType)
  }

  /** Adding a child always makes `has_children` true; adding an attribute
      never changes it, nor the two type tests. */
  lemma MutatorsAndQueries(n: TreeNode, id: nat, key: string, value: string)
    ensures HasChildren(AddChild(n, id))
    ensures HasChildren(AddAttribute(n, key, value)) == HasChildren(n)
    ensures IsAttribute(AddChild(n, id)) == IsAttribute(n)
    ensures IsVirtualAttributes(AddAttribute(n, key, value)) == IsVirtualAttributes(n)
    ensures !(IsAttribute(n) && IsVirtualAttributes(n))
  {
  }
}
