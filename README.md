# XTreeViewer tree engine, modelled in Dafny

XTreeViewer (`xtv`) is a terminal viewer for structured files. It has a builder for each supported format: JSON, JSON Lines, XML, HTML, LDIF (RFC 2849), TOML and YAML. Each builder turns a file into one tree. The user then browses that tree in two panes: a tree pane that can be expanded and collapsed, and a detail pane that shows the selected node's attributes with long values wrapped.

This project models the core of that engine and proves properties of the model:

- **Nodes and the arena tree** (`node.dfy`, `arena.dfy`). Nodes live in one growing vector, and a node's id is its position in it. `add_child_node` sets the parent link and appends the id to the parent's child list. The builders that link parents keep an invariant, `Linked`: the root comes first, every child has a larger id than its parent and names it as its parent, and every parent link is matched by an earlier child entry.
- **The LDIF engine**, in three parts:
  - the attribute-line reader (`ldif_attr.dfy`), with base64 values decoded as in section 4 of RFC 4648 (`base64.dfy`) and UTF-8 decoding (`utf8.dfy`);
  - DN handling (`dn.dfy`), including the escaped commas of section 2.4 of RFC 4514;
  - the record layout (`ldif_records.dfy`).
- **The two LDIF builders.** The in-memory builder (`LdifFileParser` and `build_tree`) is in `ldif_memory.dfy` and `ldif_build.dfy`. The streaming builder (`build_ldif_index`, the index of node entries, and `StreamingTree` with its LRU cache of 1000 nodes) is in `ldif_index.dfy` and `streaming.dfy`. `ldif_compare.dfy` sets the two side by side. On the same records they build trees of the same shape. The lemmas there also state where their readings of the same text differ.
- **The `TreeVariant` facade** (`facade.dfy`). It is one query surface over both LDIF trees.
- **The other format builders**: `json.dfy`, `jsonlines.dfy`, `yaml.dfy`, `toml.dfy`, `xml.dfy` and `html.dfy`. The JSON, YAML and TOML builders share a generic emission scheme (`emit.dfy`). The XML builder reads an event sequence. The HTML builder reads a parsed document.
- **Parser selection** (`parser_select.dfy`): by file extension, by format name and by content sniffing.
- **The configuration** (`config.dfy`): its default values and `validate`.
- **The tree pane's state machine** (`tree_view.dfy`): the expanded set, the visible rows in pre-order, and the selection.
- **The detail pane's word wrapper** (`detail_view.dfy`): the greedy `wrap_text`.

The model follows the code where the code and its documentation disagree:

- The node type carries an optional parent id, because the arena reads and sets `parent_id`.
- `StreamingTree::get_node` returns a plain copy of the node. That copy has no parent link; only `get_parent` gives it.
- The two LDIF builders are modelled as written, each with its own reading of the text. Their differences are stated as lemmas, not corrected.
- The error kinds include `Config` and a TOML parse error. `config.rs` and `toml.rs` raise them, but `src/error.rs` does not declare them.

## Model

| member | source | states |
|---|---|---|
| Node.NewNode | src/tree/node.rs:34-41 | a new node has the given caption and type, no attributes, no children and no parent |
| Node.WithAttributes | src/tree/node.rs:43-46 | the attribute list is replaced wholesale and nothing else changes |
| Node.AddAttribute | src/tree/node.rs:48-50 | exactly one pair is appended after the old attributes, nothing else changes |
| Node.AddChild | src/tree/node.rs:52-54 | exactly one id is appended after the old children, nothing else changes |
| Node.ValueLeaf | src/tree/node.rs:48-69 | the scalar leaf every builder makes is an "attribute" node without children whose one attribute is `value` |
| Node.MutatorsAndQueries | src/tree/node.rs:52-69 | adding a child makes `has_children` true; adding an attribute changes neither `has_children` nor the type tests; no node is both an attribute and an `@attributes` node |
| Arena.AppendChildAt | src/tree/mod.rs:145-147 | `get_node_mut(p)` then `add_child(c)` appends `c` to node `p` when it exists and leaves every other node unchanged |
| Arena.InsertFirstChildAt | src/parser/xml.rs:176-179 | `children.insert(0, c)` puts `c` in front of node `p`'s children and changes nothing else |
| Arena.AddChildNodeTo | src/tree/mod.rs:104-111 | the new node gets the next id and the parent link; the parent, when it exists, gets the id appended; other nodes are unchanged |
| Arena.AddChildNodeInvalidParent | src/tree/mod.rs:101-111 | with a parent id that names no node, the node is still pushed with that parent link and no child list changes |
| Arena.AddChildNodeKeepsLinked | src/tree/mod.rs:86-111 | adding a childless node under an existing node keeps the arena `Linked` |
| Arena.ChildLinksKept | src/tree/mod.rs:104-111 | every child keeps a larger id than its parent and names it |
| Arena.IncreasingKept | src/tree/mod.rs:104-111 | child lists stay strictly increasing |
| Arena.ParentLinksKept | src/tree/mod.rs:104-111 | every parent link stays matched by a child entry of an earlier node |
| Arena.AddChildrenTo | src/tree/mod.rs:104-111 | repeated `add_child_node` grows the arena by one node per call |
| Arena.AddChildrenOrder | src/tree/mod.rs:104-111 | after repeated `add_child_node` under `p`, `p`'s children are its old ones followed by the new ids in order; the new nodes carry the parent link and other nodes are unchanged |
| Arena.AddChildrenList | src/tree/mod.rs:104-111 | node `p` differs from before only by the appended consecutive ids |
| Arena.AddChildrenKeep | src/tree/mod.rs:104-111 | nodes other than `p` are unchanged |
| Arena.AddChildrenNew | src/tree/mod.rs:104-111 | the k-th new node is the k-th given node with the parent link set |
| Arena.AddChildrenKeepsLinked | src/tree/mod.rs:104-111 | adding childless nodes one by one under an existing node keeps the arena `Linked` |
| Arena.LinkedChildrenFollow | src/tree/mod.rs:15-18 | in a linked arena every child id is larger than its parent's and names an existing node |
| Arena.PushKeepsFollow | src/tree/mod.rs:80-84 | `add_node` of a childless node keeps children-follow-parents |
| Arena.AppendChildKeepsFollow | src/tree/mod.rs:145-147 | appending a later id to an earlier node's children keeps children-follow-parents |
| Arena.InsertFirstKeepsFollow | src/parser/html.rs:53-56 | inserting a later id in front of an earlier node's children keeps children-follow-parents |
| Arena.AddChildrenKeepFollow | src/tree/mod.rs:104-111 | repeated `add_child_node` keeps children-follow-parents |
| Arena.FollowWeakens | src/tree/mod.rs:80-84 | an arena whose children follow their parents also has every child in range and meets the order that allows leaves listed by a later node |
| Arena.Tree.constructor | src/tree/mod.rs:58-63 | `Tree::new`: the root is the only node and has id 0 |
| Arena.Tree.AddNode | src/tree/mod.rs:80-84 | the node is pushed unchanged and its id is the old node count |
| Arena.Tree.AddChildNode | src/tree/mod.rs:104-111 | the arena becomes `AddChildNodeTo` of the old one and the id is the old node count |
| Arena.Tree.AppendChild | src/tree/mod.rs:145-147 | the arena becomes `AppendChildAt` of the old one |
| Arena.Tree.InsertFirstChild | src/parser/xml.rs:176-179 | the arena becomes `InsertFirstChildAt` of the old one |
| Arena.Tree.GetNode | src/tree/mod.rs:127-129 | a node exactly for the ids in range, and then the stored node |
| Arena.Tree.GetChildren | src/tree/mod.rs:172-176 | the node's children, or empty for an unknown id |
| Arena.Tree.NodeCount | src/tree/mod.rs:187-189 | the length of the node vector |
| Arena.Tree.GetParent | src/tree/mod.rs:205-207 | the node's parent link, or none for an unknown id |
| Dn.SeparatorFrom | src/parser/ldif.rs:293-313 | a separator found at or after `i` lies inside the DN |
| Dn.SeparatorFromSpec | src/parser/ldif.rs:293-317 | the search returns the first comma that is neither escaped nor quoted, and none means there is no such comma |
| Dn.GetParentDn | src/parser/ldif.rs:288-318 | a parent DN, when there is one, is never empty |
| Dn.NonBlank | src/parser/ldif.rs:304-310 | the trimmed text after the separator, and none when it is blank |
| Dn.GetParentDnScan | src/parser/ldif.rs:288-318 | the scanning loop with its two flags returns exactly `GetParentDn` |
| Dn.ScanPrefix | src/parser/ldif.rs:293-301 | the scan flags over a prefix do not depend on what follows |
| Dn.ScanAfter | src/parser/ldif.rs:293-301 | after a piece that leaves the flags clear, the scan of the rest starts afresh |
| Dn.SeparatorPrefix | src/parser/ldif.rs:293-313 | whether a comma separates does not depend on the text after it |
| Dn.SeparatorAfter | src/parser/ldif.rs:293-313 | behind a clean piece, a comma separates exactly when it does in the rest alone |
| Dn.SeparatorFromAfter | src/parser/ldif.rs:293-313 | behind a clean piece, a search from inside the rest finds the rest's separator shifted |
| Dn.SeparatorFromClean | src/parser/ldif.rs:293-313 | a clean piece holds no separator, so the search skips it |
| Dn.SeparatorShift | src/parser/ldif.rs:293-313 | behind a clean piece, the first separator is the rest's first separator, shifted |
| Dn.ParentSkipsClean | src/parser/ldif.rs:288-318 | a clean piece in front of a DN does not change its parent |
| Dn.SameParent | src/parser/ldif.rs:288-318 | a DN keeps its parent behind any clean prefix |
| Dn.ParentAt | src/parser/ldif.rs:302-311 | when the first separator is at `i`, the parent is the trimmed text after `i` |
| Dn.NoParentAt | src/parser/ldif.rs:316-317 | a DN without a separator has no parent |
| Dn.CleanConcat | src/parser/ldif.rs:293-301 | two clean pieces make a clean piece |
| Dn.PlainClean | src/parser/ldif.rs:299-312 | text without commas, backslashes or quotes is clean |
| Dn.PlainRests | src/parser/ldif.rs:299-312 | such text leaves both flags clear at every position |
| Dn.EscapeClean | src/parser/ldif.rs:294-300 | a backslash and the character it escapes, comma included, are clean |
| Dn.QuotedClean | src/parser/ldif.rs:301 | a double-quoted run with no quote or backslash inside is clean |
| Dn.QuotedRests | src/parser/ldif.rs:301 | inside such a run the scan is in quotes with no pending escape |
| Dn.CommaParent | src/parser/ldif.rs:302-311 | a DN that starts with a separator has the rest, trimmed, as its parent |
| Dn.CleanHasNoParent | src/parser/ldif.rs:316-317 | a clean DN has no parent |
| Dn.ParentAfterClean | src/parser/ldif.rs:288-318 | the parent is what follows the first separator after a clean first component |
| Dn.ComputeRdn | src/parser/ldif.rs:323-335 | without a parent the label is the trimmed DN |
| Dn.RdnStripsParent | src/parser/ldif.rs:323-335 | a DN of the form `x,p` has label `x`, trimmed, under parent `p` |
| Dn.RdnKeepsDn | src/parser/ldif.rs:323-335 | a label other than the trimmed DN comes only from cutting off a `,p` suffix |
| Dn.RdnOfOwnParent | src/parser/ldif.rs:288-335 | with a clean first component, the label both builders compute from the DN's own parent is that component |
| Dn.EscapedComma | src/parser/ldif.rs:294-300 | a backslash-escaped comma does not separate (`cn=Doe\, John,ou=People` has parent `ou=People`), as section 2.4 of RFC 4514 escapes it |
| Dn.QuotedComma | src/parser/ldif.rs:301-302 | a comma inside double quotes does not separate |
| Dn.SpaceAfterComma | src/parser/ldif.rs:304-335 | a space after the separator is trimmed off the parent but stays in the DN, so the label is the whole DN |
| Dn.SpaceParent | src/parser/ldif.rs:304 | the parent after `, ` is the trimmed text after the comma |
| Dn.SpaceBeforeSuffix | src/parser/ldif.rs:326-334 | with a space before the parent, the DN does not end with `,parent` and the label is the trimmed DN |
| Templates.NodeOf | src/parser/json.rs:50-56 | the node a template adds carries the template's caption, type and attributes, with no children and no parent yet |
| Templates.GenSize | src/parser/json.rs:47-96 | every template adds at least one node |
| Templates.Attach | src/parser/yaml.rs:63-64 | adding one node, linked (`add_child_node`) or not (`add_node` plus `add_child`), grows the arena by one |
| Templates.KidStarts | src/parser/json.rs:58-61 | the ids the children of a node receive, one per child template |
| Templates.EmitShape | src/parser/json.rs:47-96 | `convert_value` appends exactly the template's nodes in pre-order: the new node gets the template's fields, its children's ids and a parent link exactly when linking; the only earlier node that changes is the parent, which gets the new id appended |
| Templates.EmitKidsShape | src/parser/json.rs:58-61 | the loop over children appends their nodes and lists their first ids, in order, after the parent's old children |
| Templates.EmitKeepsLinked | src/parser/json.rs:56 | a builder that links parents keeps the arena `Linked` |
| Templates.EmitKidsKeepLinked | src/parser/json.rs:58-61 | the loop over children keeps the arena `Linked` |
| Templates.EmitKeepsFollow | src/parser/yaml.rs:84-85 | with or without parent links, adding a template keeps every child after its parent and in range |
| Templates.EmitKidsKeepFollow | src/parser/yaml.rs:86-89 | the loop over children keeps every child after its parent and in range |
| Templates.EmitUnlinked | src/parser/yaml.rs:63-64 | a builder that uses `add_node` leaves every node it adds without a parent link |
| Templates.EmitKidsUnlinked | src/parser/yaml.rs:67-77 | the loop over children adds only nodes without a parent link |
| Templates.EmitParentsFrame | src/parser/json.rs:47-96 | adding nodes never changes the parent link of an existing node |
| Templates.EmitKidsParentsFrame | src/parser/json.rs:58-61 | the loop over children never changes the parent link of an existing node |
| Templates.EmitKidsStep | src/parser/json.rs:58-61 | one more loop iteration adds one more child template |
| JsonParser.JsonGen | src/parser/json.rs:47-96 | the nodes of a value are labelled with the key they were reached by |
| JsonParser.MemberGens | src/parser/json.rs:58-61 | one child per member, labelled with the member's key |
| JsonParser.ItemGens | src/parser/json.rs:70-73 | one child per item, labelled `[i]` by its zero-based position |
| JsonParser.ItemGensFrom | src/parser/json.rs:70-73 | items labelled from `[base]` on |
| JsonParser.JsonGenSize | src/parser/json.rs:47-96 | exactly one node per value, counted independently of the builder |
| JsonParser.MemberGensSize | src/parser/json.rs:58-61 | the members add one node per value they hold |
| JsonParser.ItemGensSize | src/parser/json.rs:70-73 | the items add one node per value they hold |
| JsonParser.JsonTreeShape | src/parser/json.rs:10-36 | the built tree is `Linked`, holds the root plus one node per value, and the root's children are the top-level nodes in order |
| JsonParser.RootChildCount | src/parser/json.rs:16-33 | an object's members and an array's items go directly under the root; a scalar gives it one child |
| JsonParser.ConvertValue | src/parser/json.rs:47-96 | the arena grows by exactly the value's template under `p` |
| JsonParser.ConvertMembers | src/parser/json.rs:59-61 | the loop adds the members' templates under the object node, in order |
| JsonParser.ConvertItems | src/parser/json.rs:71-73 | the loop adds the items' templates under the array node, in order |
| JsonParser.ConvertAll | src/parser/json.rs:16-33 | the top level adds the members, the items or the one scalar under the root |
| JsonParser.Parse | src/parser/json.rs:10-36 | a decode error is reported as a JSON parse error; otherwise the tree is `JsonTree` of the document, with root id 0 |
| JsonLinesParser.Scan | src/parser/jsonlines.rs:15-29 | the templates of the non-blank lines in order, or the first decoding error |
| JsonLinesParser.NonBlank | src/parser/jsonlines.rs:16-21 | the positions of the lines that are not blank once trimmed, strictly increasing |
| JsonLinesParser.ScanOk | src/parser/jsonlines.rs:15-29 | with no failing line, the root gets one child per non-blank line, in order, labelled by its one-based physical line number and built from that line's document |
| JsonLinesParser.ScanErr | src/parser/jsonlines.rs:24 | the parse fails exactly when some non-blank line fails to decode |
| JsonLinesParser.FailingLineErrs | src/parser/jsonlines.rs:24 | one failing non-blank line makes the whole parse fail |
| JsonLinesParser.ErrHasFailingLine | src/parser/jsonlines.rs:24 | a failed parse has a failing non-blank line |
| JsonLinesParser.ScanStep | src/parser/jsonlines.rs:15-29 | one more line fails the scan exactly when the scan so far failed or that line fails |
| JsonLinesParser.RootChildrenPerLine | src/parser/jsonlines.rs:26-28 | each document stays one root child, without being flattened into the root, and the tree is `Linked` |
| JsonLinesParser.Parse | src/parser/jsonlines.rs:10-32 | the loop returns the first failing line's error, or the tree of all non-blank lines |
| JsonLinesParser.ParseLines | src/parser/jsonlines.rs:15-32 | the loop over the lines returns the first failing non-blank line's error, or a fresh tree of all non-blank lines |
| JsonLinesParser.ScanErrPrefix | src/parser/jsonlines.rs:24 | once a prefix of the lines fails, the whole text fails with the same error |
| YamlParser.YamlGen | src/parser/yaml.rs:54-132 | the nodes of a value are labelled with the key they were reached by |
| YamlParser.EntryGen | src/parser/yaml.rs:67-77 | an entry's value is labelled with its key's text |
| YamlParser.EntryGens | src/parser/yaml.rs:67-77 | one child per entry, in order |
| YamlParser.ItemGens | src/parser/yaml.rs:88-90 | one child per item, labelled `[i]` |
| YamlParser.ScalarKeyLabel | src/parser/yaml.rs:69-75 | a scalar key is labelled with the text the same scalar shows as a value |
| YamlParser.TaggedShape | src/parser/yaml.rs:116-130 | a tagged value gives a "tagged" node holding its tag, with exactly one child: the inner value, labelled "value" |
| YamlParser.YamlTreeShape | src/parser/yaml.rs:10-43 | no node of the built tree has a parent link, the root's children are the top-level nodes in order, and every child comes after its parent |
| YamlParser.ConvertValue | src/parser/yaml.rs:54-132 | the arena grows by exactly the value's template under `p`, added with `add_node` and `add_child` |
| YamlParser.ConvertEntries | src/parser/yaml.rs:67-77 | the loop adds the entries' templates under the mapping node, in order |
| YamlParser.ConvertItems | src/parser/yaml.rs:88-90 | the loop adds the items' templates under the sequence node, in order |
| YamlParser.ConvertTop | src/parser/yaml.rs:16-40 | the top level adds a mapping's entries, a sequence's items or the one scalar under the root |
| YamlParser.Parse | src/parser/yaml.rs:10-43 | a decode error is reported as a YAML parse error; otherwise the tree is `YamlTree` of the document |
| TomlParser.TomlGen | src/parser/toml.rs:34-86 | the nodes of a value are labelled with the key they were reached by |
| TomlParser.EntryGen | src/parser/toml.rs:44-46 | a table entry's value is labelled with its key |
| TomlParser.EntryGens | src/parser/toml.rs:44-46 | one child per table entry, in order |
| TomlParser.ItemGens | src/parser/toml.rs:56-58 | one child per array item, labelled `[i]` |
| TomlParser.TomlTreeShape | src/parser/toml.rs:10-23 | the built tree is `Linked`; the root has one child per top-level entry; a document that is not a table gives a lone root |
| TomlParser.IntegerLeaf | src/parser/toml.rs:65-69 | an integer becomes one leaf whose value is its decimal text |
| TomlParser.ConvertValue | src/parser/toml.rs:34-86 | the arena grows by exactly the value's template under `p` |
| TomlParser.Parse | src/parser/toml.rs:10-23 | a decode error is reported as a TOML parse error; otherwise the tree is `TomlTree` of the document |
| XmlParser.CollectAttrs | src/parser/xml.rs:47-52 | the tag's attributes in order when every one reads; an error exactly when some attribute fails |
| XmlParser.CollectAttrsErrPrefix | src/parser/xml.rs:48 | the first attribute error is final: the attributes after it cannot change the result |
| XmlParser.VirtualFrame | src/parser/xml.rs:138-181 | no attributes leave the arena unchanged; otherwise one container and one leaf per attribute are added, the container becomes the element's first child, and no other existing node changes |
| XmlParser.VirtualNodes | src/parser/xml.rs:148-165 | the container is the next id, unlinked, listing the next ids; each leaf is an "attribute" node labelled with its key, holding its value, linked to the container, in stable key order |
| XmlParser.AttributeOrder | src/parser/xml.rs:151-153 | the leaves are sorted by key, a permutation of the attributes, and attributes sharing a key keep their source order |
| XmlParser.AddElementValid | src/parser/xml.rs:57-65 | adding an element keeps every open element a valid node and every child after its parent |
| XmlParser.StepValid | src/parser/xml.rs:40-121 | each event keeps the builder's state valid, so the parent lookups on the stack always succeed |
| XmlParser.RunValid | src/parser/xml.rs:40-124 | a whole run of events keeps the state valid |
| XmlParser.StartStep | src/parser/xml.rs:42-69 | a start tag adds an "element" node named after the tag with its attributes in source order, linked under the innermost open element (or unattached when none is open), and opens it |
| XmlParser.ElementShape | src/parser/xml.rs:55-65 | the element gets the next id; with attributes its only child is the container; the parent gains it as its last child |
| XmlParser.EndStep | src/parser/xml.rs:70-73 | an end tag closes the innermost open element; with none open it changes nothing |
| XmlParser.TextStep | src/parser/xml.rs:74-91 | text is trimmed; blank text adds nothing; other text adds an unlinked "text" node with a "content" attribute, appended to the innermost open element's children |
| XmlParser.TextNode | src/parser/xml.rs:83-84 | a "text" node with one "content" attribute, no children and no parent link |
| XmlParser.ErrorsAbort | src/parser/xml.rs:40-121 | a reader error, an attribute error or an unescape error aborts the whole parse |
| XmlParser.CreateVirtualAttributesNode | src/parser/xml.rs:140-166 | the arena and the returned id are those of the container construction |
| XmlParser.AddVirtualAttributesIfPresent | src/parser/xml.rs:170-181 | the arena is the one the container construction and the first-child insertion give |
| XmlParser.ReadAttrs | src/parser/xml.rs:47-52 | the loop returns the attributes, or the first error |
| XmlParser.AddElementNode | src/parser/xml.rs:43-65 | the arena and the new id are those of adding the element |
| XmlParser.Parse | src/parser/xml.rs:29-127 | an XmlParse error carrying the first error's message, or a fresh tree whose nodes are those of running the events up to the first Eof |
| HtmlParser.CreateVirtual | src/parser/html.rs:90-108 | adds one node per attribute plus a container, returning the container's id (after the leaves), and nothing for no attributes |
| HtmlParser.ElementAlone | src/parser/html.rs:40-57 | the element and its attribute nodes add one node plus, for a non-empty attribute list, one per attribute and a container |
| HtmlParser.ElementHead | src/parser/html.rs:40-60 | as ElementAlone, the element then linked under its parent |
| HtmlParser.Traverse | src/parser/html.rs:36-88 | traversing a DOM node adds exactly the nodes its visible parts need |
| HtmlParser.TraverseAll | src/parser/html.rs:63-65 | traversing siblings adds the sum of what each one adds |
| HtmlParser.TraverseHeadAttributes | src/parser/html.rs:47-57 | after the whole subtree is built, the container and the attribute leaves are still as first created |
| HtmlParser.CreateVirtualShape | src/parser/html.rs:98-107 | existing nodes are untouched; the leaves come in attribute order, each holding its value, then the unlinked container listing them |
| HtmlParser.ElementAloneShape | src/parser/html.rs:40-57 | the element node is next, its first child the container; the nodes after it are unlinked |
| HtmlParser.ElementHeadShape | src/parser/html.rs:40-60 | as ElementAloneShape, with the element appended to the parent's children and no other earlier node changed |
| HtmlParser.TailUnlinked | src/parser/html.rs:100-107 | the attribute leaves and the container have no parent link |
| HtmlParser.AppendNew | src/parser/html.rs:73-74 | adding a leaf and linking it touches only the parent |
| HtmlParser.TraverseShape | src/parser/html.rs:36-88 | traversing one DOM node appends its id to the parent's children when it adds anything; every node it adds is unlinked and later nodes only |
| HtmlParser.ElementShape | src/parser/html.rs:38-66 | an element's node lists its container (if any), then its visible children in order |
| HtmlParser.TraverseAllShape | src/parser/html.rs:63-65 | traversing a list of siblings appends their visible ids to the parent, in order |
| HtmlParser.HtmlTreeShape | src/parser/html.rs:11-25 | the built tree has no parent links, the root lists the visible top-level nodes, and every child comes after its parent unless it is a leaf |
| HtmlParser.PrefixLayered | src/parser/html.rs:60 | linking the next id under a node that is not an attribute leaf keeps the order of every existing node's children |
| HtmlParser.LeafLayered | src/parser/html.rs:68-83 | a text or comment leaf added under an element or the root keeps the order |
| HtmlParser.HeadLayered | src/parser/html.rs:98-107 | the element, its attribute leaves and the container keep the order: the container lists earlier ids, all of them childless attribute leaves |
| HtmlParser.TraverseLayered | src/parser/html.rs:36-88 | traversing one DOM node under an element or the root keeps the order |
| HtmlParser.TraverseAllLayered | src/parser/html.rs:63-65 | traversing a list of siblings keeps the order |
| HtmlParser.TextAndComments | src/parser/html.rs:68-83 | whitespace-only text adds nothing; other text is trimmed into a "text" leaf; a comment is kept untrimmed as a "comment" leaf |
| HtmlParser.ElementAttributes | src/parser/html.rs:43-57 | the attributes are listed under the container in the element's order as unlinked "attribute" leaves, all with smaller ids than the container |
| HtmlParser.CreateVirtualAttributesNode | src/parser/html.rs:90-108 | the arena and the returned id are those of the container construction |
| HtmlParser.AddAttributeLeaf | src/parser/html.rs:100-105 | one loop turn: one more leaf added, and the container lists one more id |
| HtmlParser.TraverseNode | src/parser/html.rs:36-88 | the arena is that of traversing the node |
| HtmlParser.TraverseChildren | src/parser/html.rs:63-65 | the arena is that of traversing the siblings in order |
| HtmlParser.Parse | src/parser/html.rs:11-25 | always succeeds, with a fresh tree whose nodes are those of traversing the root element's children under the root |
| Base64.ValueOf | src/parser/ldif.rs:184 | the decoder's alphabet gives every character a six-bit value or none |
| Base64.AlphabetBijection | src/parser/ldif.rs:184 | the alphabet is a bijection between the 64 six-bit values and its characters |
| Base64.EncodeChars | src/parser/ldif.rs:184 | a canonical encoding holds only alphabet characters and `=` |
| Base64.DecodeFull | src/parser/ldif.rs:184 | four alphabet characters decode to three bytes |
| Base64.DecodeLast | src/parser/ldif.rs:184 | a padded last group decodes to one or two bytes, and only when the bits the padding drops are zero |
| Base64.Encode3Decodes | src/parser/ldif.rs:184 | a full group of three bytes decodes back to them |
| Base64.OneDecodes | src/parser/ldif.rs:184 | a last group with `==` decodes back to its byte |
| Base64.TwoDecodes | src/parser/ldif.rs:184 | a last group with `=` decodes back to its two bytes |
| Base64.DecodeEncode | src/parser/ldif.rs:184 | decoding the canonical encoding of any bytes gives them back |
| Base64.FullCanonical | src/parser/ldif.rs:184 | a full group the decoder accepts is the encoding of what it decodes to |
| Base64.LastCanonical | src/parser/ldif.rs:184 | a last group the decoder accepts is the encoding of what it decodes to |
| Base64.TwoCanonical | src/parser/ldif.rs:184 | a last group with one `=` is the encoding of its two bytes |
| Base64.OneCanonical | src/parser/ldif.rs:184 | a last group with `==` is the encoding of its byte |
| Base64.DecodeCanonical | src/parser/ldif.rs:184 | the decoder accepts only canonical encodings: whatever it accepts is the encoding of its result, so decoding is injective |
| Base64.DecodeCons | src/parser/ldif.rs:184 | a text of several groups decodes group by group |
| Utf8.EncodeChar | src/parser/ldif.rs:187 | a character encodes to one to four bytes, as many as its UTF-8 width |
| Utf8.EncodeLength | src/parser/ldif.rs:187 | the encoding of a text is as long as its byte length (`str::len`) |
| Utf8.DecodeChar | src/parser/ldif.rs:187 | a decoded character consumes one to four bytes of the input |
| Utf8.DecodeEncodeChar | src/parser/ldif.rs:187 | decoding a character's encoding gives the character back and consumes exactly its bytes |
| Utf8.DecodeEncode | src/parser/ldif.rs:187 | `String::from_utf8` accepts the encoding of every text and gives the text back |
| Utf8.Rejects | src/parser/ldif.rs:187 | `String::from_utf8` rejects a lone continuation byte, an overlong form and an encoded surrogate |
| Text.TrimStart | src/parser/mod.rs:214 | `trim_start` removes a prefix and leaves no leading whitespace |
| Text.TrimStartCuts | src/parser/mod.rs:214 | what `trim_start` removes is all whitespace |
| Text.TrimEnd | src/parser/ldif.rs:89 | `trim_end` removes a suffix and leaves no trailing whitespace |
| Text.TrimEndCuts | src/parser/ldif.rs:89 | what `trim_end` removes is all whitespace |
| Text.TrimSpec | src/parser/ldif.rs:89 | `trim` removes only whitespace, from both ends, and leaves none at either end |
| Text.TrimIdentity | src/parser/ldif.rs:89 | text with no whitespace at either end is its own trim |
| Text.TrimLeadingSpace | src/parser/ldif.rs:89 | a leading space does not change the trim |
| Text.TrimEmptyIffAllWhite | src/parser/ldif.rs:391 | a line is blank (`trim().is_empty()`) exactly when all of it is whitespace |
| Text.TrimEndKeepsFirst | src/parser/ldif.rs:89 | `trim_end` never empties a text that starts with a non-whitespace character |
| Text.FindFrom | src/parser/ldif.rs:157 | the search returns the first occurrence at or after the start, and none when there is none |
| Text.Find | src/parser/ldif.rs:157 | `str::find` returns the first occurrence, and none exactly when the pattern does not occur |
| Text.DigitChar | src/parser/json.rs:26 | a decimal digit renders as its character |
| Text.NatToString | src/parser/json.rs:26 | a number renders as digits without a leading zero |
| Text.NatToStringRoundTrip | src/parser/json.rs:26 | reading the rendering back gives the number |
| Text.NatToStringInjective | src/parser/json.rs:26 | different numbers render differently |
| Text.IntToString | src/config.rs:176-180 | a negative number renders with a leading `-` |
| Text.IndexLabel | src/parser/json.rs:72 | the `[i]` label of the i-th array element |
| Text.IndexLabelInjective | src/parser/json.rs:72 | different positions get different labels |
| Text.Utf8Width | src/ui/detail_view.rs:148 | a character takes one to four bytes |
| Text.ByteLen | src/ui/detail_view.rs:148 | `str::len` lies between the character count and four times it |
| Text.ByteLenAppend | src/ui/detail_view.rs:148 | the byte length of a concatenation is the sum of the byte lengths |
| Text.AsciiLower | src/parser/mod.rs:163 | lower-casing maps exactly the ASCII capitals and keeps the length |
| Text.JoinAppend | src/ui/detail_view.rs:149-150 | joining one more part appends the separator and the part |
| Text.RunLength | src/ui/detail_view.rs:145 | the leading run of non-whitespace stops at whitespace or the end |
| Text.WordsAreWords | src/ui/detail_view.rs:145 | every word of `split_whitespace` is a non-empty run without whitespace |
| Text.WordsEmptyIffAllWhite | src/ui/detail_view.rs:145 | a text has no words exactly when all of it is whitespace |
| Text.IndexOf | src/parser/ldif.rs:168 | the first position of a character, or none when it does not occur |
| Text.StripCr | src/parser/ldif.rs:35 | from a piece a line feed ended, `str::lines` removes at most one carriage return, the one just before the line feed |
| Text.Lines | src/parser/ldif.rs:35 | no line of `str::lines` holds a line feed |
| Text.LinesSplit | src/parser/ldif.rs:35 | the line endings are `\n` and `\r\n`; a last line without a line feed is kept whole, a bare carriage return included |
| Text.LinesAtFeed | src/parser/ldif.rs:35 | the text up to the first line feed, less a carriage return just before it, is the first line, and the rest splits on its own |
| Text.LinesRoundTrip | src/parser/ldif.rs:35 | without carriage returns, the lines joined with line feeds give the text back, up to a final line feed |
| Sorting.LexLeTotal | src/parser/ldif.rs:256 | the string order is total |
| Sorting.LexLeAntisym | src/parser/ldif.rs:256 | the string order is antisymmetric |
| Sorting.LexLeTrans | src/parser/ldif.rs:256 | the string order is transitive |
| Sorting.Insert | src/parser/xml.rs:152-153 | insertion keeps every element: the result is a permutation of the input plus the new element |
| Sorting.SortBy | src/parser/xml.rs:152-153 | the sort keeps the length and is a permutation of its input |
| Sorting.InsertSorted | src/parser/xml.rs:152-153 | inserting into a sorted sequence keeps it sorted |
| Sorting.InsertWithKey | src/parser/xml.rs:152-153 | insertion places the new element after every element with the same key |
| Sorting.NoneWithSmallerKey | src/parser/xml.rs:152-153 | in a sorted sequence whose first key is larger than `k`, nothing has key `k` |
| Sorting.WithKeyAppend | src/parser/xml.rs:152-153 | the elements with one key in a concatenation are those of each part, in order |
| Sorting.SortBySpec | src/parser/xml.rs:152-153 | `sort_by` on the key is sorted and stable: elements sharing a key keep their relative order |
| LdifAttr.HexPair | src/parser/ldif.rs:341 | a byte shows as two hex digits |
| LdifAttr.HexPairInjective | src/parser/ldif.rs:341 | different bytes show differently |
| LdifAttr.HexPairs | src/parser/ldif.rs:337-344 | one pair per byte, in order |
| LdifAttr.JoinPairs | src/parser/ldif.rs:343 | pairs joined by single spaces: pair `k` sits at position `3k`, a space between pairs |
| LdifAttr.HexPreviewShows | src/parser/ldif.rs:337-344 | `hex_preview` shows exactly the first 32 bytes, each as its pair at position `3k` |
| LdifAttr.HexPreviewInjective | src/parser/ldif.rs:337-344 | the preview determines the first 32 bytes |
| LdifAttr.DecodeValue | src/parser/ldif.rs:181-204 | `decode_base64` fails exactly when the value is not canonical base64; otherwise it gives the UTF-8 text, or for other bytes the hex preview (at most 64 bytes) or the byte count |
| LdifAttr.EncodingIsPlain | src/parser/ldif.rs:160 | a base64 encoding holds no whitespace and no colon, so `trim` keeps it |
| LdifAttr.ParseAttributeLine | src/parser/ldif.rs:155-179 | an error is always an LDIF parse error at the reader's line number |
| LdifAttr.AttributeLineErrors | src/parser/ldif.rs:155-179 | a line fails exactly when it has no colon, or its first `::` is followed by text that is not canonical base64 |
| LdifAttr.SeparatorFirst | src/parser/ldif.rs:157 | the `::` after a colon-free key is the one `find` returns |
| LdifAttr.NotFound | src/parser/ldif.rs:157-163 | a separator absent from a plain line is not found |
| LdifAttr.ColonAfterKey | src/parser/ldif.rs:168 | the colon after a colon-free key is the first one |
| LdifAttr.PlainRoundTrip | src/parser/ldif.rs:168-172 | `key: value` reads back as the trimmed key and value |
| LdifAttr.PlainCase | src/parser/ldif.rs:168-172 | without `::` or `:<`, the line splits at its first colon and both sides are trimmed |
| LdifAttr.Base64RoundTrip | src/parser/ldif.rs:157-162 | `key:: encoding` reads back as the trimmed key and the text of the encoded bytes |
| LdifAttr.TextRoundTrip | src/parser/ldif.rs:157-162 | every text survives its UTF-8 base64 form |
| LdifAttr.BadBase64 | src/parser/ldif.rs:199-202 | a base64 value that does not decode is an error at the reader's line |
| LdifAttr.UrlReference | src/parser/ldif.rs:163-167 | `key:< url` gives a reference text naming the URL, not the URL's content |
| LdifAttr.NoColon | src/parser/ldif.rs:173-178 | a line without a colon is rejected as an invalid attribute |
| LdifAttr.DoubleColonInValue | src/parser/ldif.rs:157-162 | a plain value that contains `::` is read as base64, keyed by everything before that `::` |
| LdifRecords.Matching | src/parser/ldif.rs:246-248 | a key gets no more values than there are pairs |
| LdifRecords.GroupSpec | src/parser/ldif.rs:242-248 | `attr_map` holds exactly `dn` and the keys of the pairs, each bound to its values in file order, the DN first under `dn` |
| LdifRecords.GroupValueStep | src/parser/ldif.rs:246-248 | after one more pair, each key of the map is bound to exactly its values |
| LdifRecords.MatchingNone | src/parser/ldif.rs:246-248 | a key no pair has gets no values |
| LdifRecords.DnFirst | src/parser/ldif.rs:242-243 | the DN is the first value of `dn`, followed by any `dn` attribute lines |
| LdifRecords.GroupNonEmpty | src/parser/ldif.rs:242-248 | every key of the map has at least one value |
| LdifRecords.MatchingHas | src/parser/ldif.rs:246-248 | a key that occurs in a pair has a value |
| LdifRecords.KeyOrderSpec | src/parser/ldif.rs:242-248 | the keys in first-insertion order are distinct and are exactly the map's keys |
| LdifRecords.SortedKeysSpec | src/parser/ldif.rs:255-256 | the sorted keys are strictly increasing and are exactly the map's keys |
| LdifRecords.DistinctCount | src/parser/ldif.rs:255-256 | a key occurs at most once among distinct keys |
| LdifRecords.SortedUnique | src/parser/ldif.rs:255-256 | two strictly sorted key lists with the same keys are equal, so the sorted order does not depend on the map's iteration order |
| LdifRecords.KeyLeaves | src/parser/ldif.rs:259-273 | one leaf per value, in order, each carrying its value |
| LdifRecords.KeyLeavesDistinct | src/parser/ldif.rs:267 | the `key [i]` captions of a multi-valued key are pairwise distinct |
| LdifRecords.ItemsTotal | src/parser/ldif.rs:259-273 | the leaves of the keys number as many as their values |
| LdifRecords.TotalAppend | src/parser/ldif.rs:259-273 | the value count of two key lists adds up |
| LdifRecords.TotalPermutation | src/parser/ldif.rs:255-256 | the value count does not depend on the order of the keys |
| LdifRecords.RemoveMatch | src/parser/ldif.rs:255-256 | a permutation's last key occurs in the other list, and removing it leaves a permutation of the rest |
| LdifRecords.TotalRemove | src/parser/ldif.rs:259-273 | removing one key takes its values off the count |
| LdifRecords.TotalOther | src/parser/ldif.rs:246-248 | binding a key outside the list leaves the count alone |
| LdifRecords.TotalBump | src/parser/ldif.rs:246-248 | pushing a value onto a listed key raises the count by one |
| LdifRecords.KeyOrderTotal | src/parser/ldif.rs:242-248 | the map holds one value more than the record has pairs (the DN) |
| LdifRecords.AttrItemsCount | src/parser/ldif.rs:242-273 | every value of the record, the DN included, becomes exactly one leaf under `@attributes` |
| Streaming.NewIndexEntry | src/tree/streaming.rs:35-42 | a new entry carries the given parent and payload and starts without children |
| Streaming.AddChildAt | src/tree/streaming.rs:80-85 | the child is appended to the known parent's children; every other entry, and every entry when the parent is unknown, stays as it was |
| Streaming.LdifIndex.constructor | src/tree/streaming.rs:55-60 | a new index is empty and keeps its root id |
| Streaming.LdifIndex.AddEntry | src/tree/streaming.rs:63-68 | the id handed out is the old length and the entry is appended, earlier entries unchanged |
| Streaming.LdifIndex.GetEntry | src/tree/streaming.rs:70-73 | an entry exactly for the ids handed out so far, and it is the stored one |
| Streaming.LdifIndex.AddChild | src/tree/streaming.rs:80-85 | the entries become `AddChildAt` of the old entries |
| Streaming.LdifIndex.IsEmpty | src/tree/streaming.rs:91-93 | empty exactly when the length is zero |
| Streaming.Reconstruct | src/tree/streaming.rs:269-289 | a node exactly for an id in the index; it is the payload's node with the index's children and no parent link |
| Streaming.NodeOfKinds | src/tree/streaming.rs:271-282 | root, entry, `@attributes` and attribute payloads give nodes of those kinds and captions, and only an attribute payload gives a `value` attribute |
| Streaming.Find | src/tree/streaming.rs:171 | the position of a cached id, and none exactly when no slot has the id |
| Streaming.TouchSpec | src/tree/streaming.rs:171-173 | a cache hit keeps the same slots and size, keeps ids distinct and makes the hit slot the most recent |
| Streaming.PutSpec | src/tree/streaming.rs:178-182 | a put keeps the cache within its capacity, keeps ids distinct, makes the new slot the most recent and keeps only slots that were already cached under other ids |
| Streaming.PutThenFind | src/tree/streaming.rs:178-182 | right after a put, the id is found at the most recent slot |
| Streaming.StreamingTree.constructor | src/tree/streaming.rs:141-160 | the tree takes the index and its root id over as they are, with an empty and valid cache |
| Streaming.StreamingTree.LoadNode | src/tree/streaming.rs:212-266 | a node exactly for an id in the index when the read succeeds, and then the rebuilt one |
| Streaming.StreamingTree.GetNode | src/tree/streaming.rs:168-187 | a cache hit returns without I/O and moves the slot to most recent; a miss loads the node and caches it on success; the answer is always the node rebuilt from the index, and the cache stays bounded by 1000, duplicate-free and consistent with the index |
| Streaming.StreamingTree.GetChildren | src/tree/streaming.rs:189-194 | the index's child ids, empty for an unknown id |
| Streaming.StreamingTree.GetParent | src/tree/streaming.rs:197-201 | the index's parent link, none for an unknown id |
| Streaming.NewStreamingTree | src/tree/streaming.rs:141-160 | an I/O error exactly when the file cannot be opened; otherwise a tree over the index with an empty cache |
| LdifStream.FoldDn | src/parser/ldif.rs:402-416 | the DN folding never reads past the end, and consumes no line only at the end of the input, then keeping nothing aside |
| LdifStream.FoldAttr | src/parser/ldif.rs:470-482 | the attribute folding never reads past the end |
| LdifStream.AttrLoop | src/parser/ldif.rs:457-487 | the attribute loop never reads past the end |
| LdifStream.RecordAt | src/parser/ldif.rs:398-487 | reading a record always consumes its `dn:` line and never reads past the end |
| LdifStream.ScanDn | src/parser/ldif.rs:398-487 | a `dn:` line adds the record read from it and the scan goes on after that record |
| LdifStream.ScanSkip | src/parser/ldif.rs:390-395 | a blank line, a comment or any line that does not start with `dn:` is passed over |
| LdifStream.AddChildEntry | src/parser/ldif.rs:437-443 | `add_entry` followed by `add_child` grows the index by one entry |
| LdifStream.AttrEntries | src/parser/ldif.rs:499-527 | one index entry per attribute leaf |
| LdifStream.IndexSize | src/parser/ldif.rs:362-534 | the index has the root plus three entries per record and one per value, the same count as the in-memory arena |
| LdifStream.IndexLast | src/parser/ldif.rs:398-527 | one more record extends the index by that record's entries, with the parent looked up among the records before it |
| LdifStream.MapLast | src/parser/ldif.rs:440 | one more record registers its DN at the id of its entry, a later record winning |
| LdifStream.IndexStep | src/parser/ldif.rs:387-534 | one turn of the outer loop keeps the index and the DN map equal to those of the records scanned so far |
| LdifStream.BuildLdifIndex | src/parser/ldif.rs:347-539 | an I/O error exactly when the file cannot be opened; otherwise a streaming tree with root id 0 over the index of the scanned records, with an empty cache |
| LdifStream.BuildIndex | src/parser/ldif.rs:362-534 | after the optional `version:` line, the loop fills the index of exactly the records the scan finds |
| LdifStream.ScanLine | src/parser/ldif.rs:387-533 | one turn of the outer loop consumes at least one line and keeps the index and the map those of the records seen so far |
| LdifStream.IndexRecordAt | src/parser/ldif.rs:398-527 | a record is read as the scan reads it, its entry is added under its parent's entry or the root, its DN is registered at the entry's id, and its `@attributes` entry and leaves follow |
| LdifStream.FirstAttribute | src/parser/ldif.rs:450-455 | the line kept aside by the DN folding gives a pair when it is not blank and parses, and nothing otherwise |
| LdifStream.FoldDnLines | src/parser/ldif.rs:402-416 | the folding loop computes `FoldDn` |
| LdifStream.AddEntryOf | src/parser/ldif.rs:418-443 | the entry gets the next id, the registered parent DN's entry or the root as parent, the streaming caption, and is appended to that parent's children |
| LdifStream.ReadIndexAttributes | src/parser/ldif.rs:457-487 | the attribute loop computes `AttrLoop`: a blank line ends it, a comment is passed over, any other line is folded and parsed |
| LdifStream.FoldAndParse | src/parser/ldif.rs:470-486 | the folding loop consumes the continuations and the line after them, and the logical line's pair, if it parses, is appended |
| LdifStream.ParsePair | src/parser/ldif.rs:484-486 | a line gives its pair when it parses and nothing when it does not, without an error |
| LdifStream.AddAttributeEntries | src/parser/ldif.rs:489-527 | the `@attributes` entry is added below the entry, followed by one attribute entry per leaf below it, in order |
| LdifCompare.MirrorsPush | src/parser/ldif.rs:437-443 | adding a node with `add_child_node` and adding its entry with `add_entry` plus `add_child` keep arena and index in step |
| LdifCompare.MirrorsLeaves | src/parser/ldif.rs:499-527 | the attribute leaves keep arena and index in step |
| LdifCompare.MirrorsStep | src/parser/ldif.rs:418-527 | one record keeps arena and index in step, whatever caption each builder gives the entry |
| LdifCompare.SameRecordsSameShape | src/parser/ldif.rs:205-275 | on the same records the streaming index describes the in-memory arena node for node: same parents, same children, same kinds, same attribute leaves |
| LdifCompare.MirrorsLinked | src/parser/ldif.rs:437-443 | an index in step with a linked arena is itself linked |
| LdifCompare.IndexOfLinked | src/parser/ldif.rs:362-534 | the streaming index is linked: children come after their parent and name it as parent |
| LdifCompare.CaptionOfOrphan | src/parser/ldif.rs:419-426 | below a registered parent both builders caption an entry by its first RDN; when the parent DN was never registered the entry goes under the root in both, captioned by its whole DN in memory and by its first RDN when streaming |
| LdifCompare.FoldAttrFrom | src/parser/ldif.rs:470-482 | the attribute folding reads nothing before its starting line |
| LdifCompare.AttrLoopFrom | src/parser/ldif.rs:457-487 | the attribute loop reads nothing before its starting line |
| LdifCompare.LookAheadDropped | src/parser/ldif.rs:478-481 | after an unfolded attribute line the streaming loop drops the line it looked ahead at, whatever that line holds |
| LdifCompare.UnfoldedLine | src/parser/ldif.rs:133-153 | a line followed by no continuation is its own logical line |
| LdifCompare.MemoryReadsNextLine | src/parser/ldif.rs:114-123 | the in-memory reader keeps the pair of an unfolded line and goes on with the next line |
| LdifCompare.WhitespaceLine | src/parser/ldif.rs:461 | a whitespace-only line ends the streaming record, while the in-memory reader passes over it and reads on |
| LdifCompare.EmptyLineAfterDn | src/parser/ldif.rs:404-416 | an empty line right after `dn:` ends the in-memory record, but the streaming scan keeps it aside and reads attributes from the line after it |
| LdifCompare.NoDnNoRecords | src/parser/ldif.rs:390-395 | a scan over lines none of which starts with `dn:` finds no record |
| LdifCompare.StrayText | src/parser/ldif.rs:82-86 | text with no `dn:` line gives a streaming index with the root alone, while the in-memory parser fails |
| LdifCompare.DnFolding | src/parser/ldif.rs:400-409 | the in-memory reader trims the DN after folding; the streaming scan trims the first line before appending continuations |
| LdifCompare.LineNumberFree | src/parser/ldif.rs:541-588 | the line number only goes into the error: whether a line parses, and to what, does not depend on it |
| LdifCompare.MemoryLine | src/parser/ldif.rs:93-124 | one plain attribute line for the in-memory reader |
| LdifCompare.MemoryStep | src/parser/ldif.rs:93-124 | one more plain line for the in-memory reader adds its pair |
| LdifCompare.StreamStep | src/parser/ldif.rs:470-486 | one or two more plain lines for the streaming loop: the first is kept, the second dropped |
| LdifCompare.MemoryKeepsAll | src/parser/ldif.rs:93-124 | over plain unfolded lines the in-memory reader keeps every pair |
| LdifCompare.StreamKeepsEveryOther | src/parser/ldif.rs:457-487 | over the same lines the streaming loop keeps every other pair |
| LdifCompare.RecordOfPlainLines | src/parser/ldif.rs:398-487 | for a `dn:` line followed by plain lines, the in-memory record has every pair; the streaming record has the first, then the second, fourth and so on |
| LdifCompare.NextDnAbsorbed | src/parser/ldif.rs:404-416 | after a `dn:` line and an empty line, the streaming scan swallows the next `dn:` line as an attribute, where the in-memory reader starts a new record |
| LdifCompare.DnLineRead | src/parser/ldif.rs:391 | a `dn:` line is neither blank nor a comment |
| LdifParser.ContEnd | src/parser/ldif.rs:141-150 | the first line from `j` on that does not start with a space; every line before it does |
| LdifParser.LogicalLine | src/parser/ldif.rs:133-153 | at a line, the logical line starts with that line and consumes at least it; at the end, it is empty and consumes nothing |
| LdifParser.SkipBlank | src/parser/ldif.rs:62-68 | the skipped lines are all empty or comments, and the line it stops at is neither |
| LdifParser.SkipComments | src/parser/ldif.rs:95-101 | the skipped lines are all comments, and the line it stops at is not |
| LdifParser.Attrs | src/parser/ldif.rs:93-124 | on success the attribute loop keeps the pairs read so far as a prefix and never reads past the end |
| LdifParser.AttrLine | src/parser/ldif.rs:114-123 | one logical attribute line keeps the pairs read so far as a prefix |
| LdifParser.EntryAt | src/parser/ldif.rs:60-127 | on success `parse_entry` never reads past the end, and moves on whenever lines remain |
| LdifParser.DnLine | src/parser/ldif.rs:82-126 | a record read from its first logical line never reads past the end |
| LdifParser.EntriesFrom | src/parser/ldif.rs:51-55 | on success the records read so far are a prefix of the result |
| LdifParser.VersionSkip | src/parser/ldif.rs:44-48 | the optional version line is passed over without reading past the end |
| LdifParser.LdifFileParser.constructor | src/parser/ldif.rs:33-38 | the text is split into lines as `str::lines` does (a bare carriage return on the last line is kept, so that line fails as "Expected DN") and the cursor starts at line 0 |
| LdifParser.LdifFileParser.PeekLine | src/parser/ldif.rs:129-131 | the line under the cursor, none at the end |
| LdifParser.LdifFileParser.ReadLogicalLine | src/parser/ldif.rs:133-153 | the loop computes `LogicalLine` and leaves the cursor after the continuations |
| LdifParser.LdifFileParser.ParseEntry | src/parser/ldif.rs:60-127 | the method computes `EntryAt`: its record, or none, with the cursor after it, or its error |
| LdifParser.LdifFileParser.ReadAttributes | src/parser/ldif.rs:93-124 | the attribute loop computes `Attrs`, its pairs and where it stops, or its error |
| LdifParser.LdifFileParser.Parse | src/parser/ldif.rs:40-58 | after the optional version line the loop reads every record, and the result is the tree built from them, or the first record's error |
| LdifParser.LdifFileParser.BuildTree | src/parser/ldif.rs:206-277 | the tree `build_tree` makes is `Build` of the records, with root id 0 |
| LdifParser.AddRecord | src/parser/ldif.rs:213-273 | one record adds its entry below its parent's node or the root, captioned as `compute_rdn` says, then its `@attributes` node and leaves, and registers its DN at the entry's id |
| LdifParser.AddLeaves | src/parser/ldif.rs:259-273 | the inner loops add one attribute node per item below `@attributes`, in order |
| LdifParser.ContEndIsFirst | src/parser/ldif.rs:141-150 | any position with only continuation lines before it and none at it is `ContEnd` |
| LdifParser.Indented | src/parser/ldif.rs:143-146 | folding indents every piece by one space |
| LdifParser.FoldRoundTrip | src/parser/ldif.rs:133-153 | unfolding undoes folding, as section 3 of RFC 2849 defines it: a line followed by indented pieces reads back as the line with the pieces appended |
| LdifParser.FoldedLines | src/parser/ldif.rs:143 | the folded lines are the first line, then one indented line per piece, then lines that do not continue |
| LdifParser.IndentedContinues | src/parser/ldif.rs:143 | an indented piece is a continuation line |
| LdifParser.TailsOfIndented | src/parser/ldif.rs:145 | the continuation tails are the pieces, each without its one leading space |
| LdifParser.LogicalLineNonEmpty | src/parser/ldif.rs:77-79 | a logical line read where a non-empty line starts is never empty, so the emptiness checks in `parse_entry` never fire there |
| LdifParser.BlankInput | src/parser/ldif.rs:40-58 | a file of only empty and comment lines parses to the root alone |
| LdifParser.VersionLineSkipped | src/parser/ldif.rs:44-48 | a leading `version:` line is passed over; read as a record it would be a missing-DN error |
| LdifParser.NotADnIsFatal | src/parser/ldif.rs:82-86 | a record whose first logical line is not a `dn:` line fails the whole parse, with the line number after that logical line |
| LdifParser.BareCarriageReturnFails | src/parser/ldif.rs:33-86 | a carriage return without a line feed is not a line ending: the text `"\r"` fails at line 1 with "Expected DN, got: \r" |
| LdifParser.ParsedTreeLinked | src/parser/ldif.rs:40-58 | whatever the in-memory parser builds is `Linked`, and every registered DN names an entry node |
| LdifTree.BuildSize | src/parser/ldif.rs:206-277 | the arena has the root plus three nodes per record and one per attribute value |
| LdifTree.AddEntryShape | src/parser/ldif.rs:235-273 | one record adds its entry as the last child of its parent, with the caption, type `entry` and the `@attributes` node as only child; that node holds the leaves, each carrying its item; no other earlier node changes |
| LdifTree.AddEntryOld | src/parser/ldif.rs:235-236 | the entry node is as `add_child_node` makes it, the parent only gains the entry as its last child, and no other earlier node changes |
| LdifTree.AddEntryVirtual | src/parser/ldif.rs:251-252 | the `@attributes` node comes right after the entry, linked to it, with the leaves as its children |
| LdifTree.AddEntryLeaves | src/parser/ldif.rs:259-273 | each leaf is an attribute node below `@attributes` carrying its item's caption and value |
| LdifTree.EntryAndVirtualShape | src/parser/ldif.rs:235-252 | the entry and its `@attributes` node are linked to each other and to the parent |
| LdifTree.AddEntryLinked | src/parser/ldif.rs:213-273 | a record keeps the arena `Linked` |
| LdifTree.EntryAndVirtualLinked | src/parser/ldif.rs:235-252 | the entry and its `@attributes` node keep the arena `Linked` |
| LdifTree.LeavesLinked | src/parser/ldif.rs:259-273 | the attribute leaves added under `@attributes` keep the arena `Linked` |
| LdifTree.EntryParentOk | src/parser/ldif.rs:218-224 | the chosen parent is the root or an entry node |
| LdifTree.AddEntryMapOk | src/parser/ldif.rs:239 | registering the DN at the new entry keeps every registered DN pointing at an entry node |
| LdifTree.MapOfStep | src/parser/ldif.rs:239 | one more record registers its DN and leaves the other DNs alone |
| LdifTree.MapOfStepAll | src/parser/ldif.rs:239 | the map after one more record is the previous map with the record's DN bound to the id of its entry node |
| LdifTree.BuildInv | src/parser/ldif.rs:206-277 | after every record the arena is `Linked` and every registered DN names an entry node |
| LdifTree.InvStep | src/parser/ldif.rs:213-239 | one more record, added under the parent its DN finds, keeps the arena `Linked` and every registered DN, the new one included, naming an entry node |
| LdifTree.GrowsRefl | src/parser/ldif.rs:213-273 | an arena grows into itself |
| LdifTree.GrowsTrans | src/parser/ldif.rs:213-273 | growing is transitive |
| LdifTree.AddEntryGrows | src/parser/ldif.rs:213-273 | a record below a node that is not an attribute node only adds: ids keep their nodes, and a node only gains children |
| LdifTree.BuildLastGrows | src/parser/ldif.rs:213-273 | the last record only adds to the arena of the records before it |
| LdifTree.BuildPrefix | src/parser/ldif.rs:213 | the arena after a prefix of the records does not depend on the later records |
| LdifTree.BuildGrows | src/parser/ldif.rs:213-273 | the arena after the first records grows into the final arena: later records never move or relabel an earlier node |
| LdifTree.BuildGrowsInit | src/parser/ldif.rs:213-273 | the same, up to the last record |
| LdifTree.BuildLast | src/parser/ldif.rs:213-273 | each record is added to the arena of the records before it, with the parent and caption looked up in their DN map |
| LdifTree.MapOfLast | src/parser/ldif.rs:239 | each record registers its DN at the id of its entry node |
| LdifTree.RecordStep | src/parser/ldif.rs:213-273 | one record from any state keeping the invariant: the entry id is the old length, the parent is the root or an entry, and the invariant holds after it |
| LdifTree.LastIndex | src/parser/ldif.rs:239 | the position of the last record with a DN, none exactly when no record has it |
| LdifTree.DnMapSpec | src/parser/ldif.rs:211-239 | a DN is registered exactly when some record has it, and then maps to the entry of the last such record: a later duplicate DN wins |
| LdifTree.EntryPlacement | src/parser/ldif.rs:215-236 | a record goes below the entry of the last earlier record with its parent DN, captioned relative to that DN; otherwise below the root, captioned by its whole trimmed DN |
| Facade.RootId | src/tree/mod.rs:313-315 | the wrapped tree's root id, whichever the variant |
| Facade.GetChildren | src/tree/mod.rs:331-333 | the wrapped tree's child ids, empty for an id past the node count |
| Facade.NodeCount | src/tree/mod.rs:344-346 | the wrapped tree's node count: the arena's length or the index's |
| Facade.GetParent | src/tree/mod.rs:362-364 | the wrapped tree's parent link, none for an id past the node count |
| Facade.GetNode | src/tree/mod.rs:297-302 | the arena's copy of the node in memory; when streaming, the cached or freshly rebuilt node, present exactly when cached or loadable, the cache kept valid and left alone on failure |
| Facade.VariantsAgree | src/tree/mod.rs:331-364 | two variants built from the same records answer `node_count`, `get_children` and `get_parent` alike for every id |
| Facade.NodesAgree | src/tree/mod.rs:297-302 | on the same records `get_node` agrees on type, attributes and children, and on the caption except for entries; the streaming copy carries no parent link, which `get_parent` still gives as the arena has it |
| Facade.ArenaQueries | src/tree/mod.rs:331-364 | over a `Linked` arena the root has no parent, and every listed child has a larger id within the count and names its parent |
| Facade.IndexQueries | src/tree/mod.rs:331-364 | the same over a linked streaming index |
| Facade.ChildrenNameParent | src/tree/mod.rs:331-364 | through either variant built from records, the root has no parent and every listed child has a larger id within the count and names its parent |
| ParserSelect.Pieces | src/parser/mod.rs:106-107 | a path splits at `/` into at least one piece, none holding `/` |
| ParserSelect.LastNormal | src/parser/mod.rs:106-107 | the file name is a piece of the path that is neither empty, `.` nor `..` |
| ParserSelect.FileName | src/parser/mod.rs:106-107 | a file name is non-empty and holds no `/` |
| ParserSelect.LastDot | src/parser/mod.rs:106-107 | the position of the last `.`, with none after it; none exactly when the text has no `.` |
| ParserSelect.Extension | src/parser/mod.rs:106-108 | an extension holds neither `.` nor `/` |
| ParserSelect.FormatOfName | src/parser/mod.rs:162-169 | the format names are the extensions plus `jsonlines`, which alone is a name but no extension |
| ParserSelect.DetectParser | src/parser/mod.rs:105-127 | a format exactly when the path has an extension that, lower-cased, is one of `json`, `jsonl`, `xml`, `html`, `htm`, `ldif`, `toml`, `yaml`, `yml`; otherwise an unsupported-format error |
| ParserSelect.GetParserFromFormat | src/parser/mod.rs:161-175 | a format exactly when the name, lower-cased, is a known format name; otherwise an unsupported-format error |
| ParserSelect.AsciiLowerIdentity | src/parser/mod.rs:109 | lower-casing leaves a text without capitals alone |
| ParserSelect.SimplePath | src/parser/mod.rs:106-108 | a path `stem.ext` with no directory part has extension `ext` |
| ParserSelect.CanonicalRoundTrip | src/parser/mod.rs:111-118 | each format's own name is an extension that selects it |
| ParserSelect.CanonicalLower | src/parser/mod.rs:109 | the formats' own names are lower case |
| ParserSelect.CanonicalNameSelects | src/parser/mod.rs:161-169 | every format is chosen by its own name |
| ParserSelect.CanonicalExtensionSelects | src/parser/mod.rs:105-118 | every format is chosen by a path whose extension is its name |
| ParserSelect.JsonLinesLower | src/parser/mod.rs:164 | `jsonlines` is lower case |
| ParserSelect.JsonLinesIsName | src/parser/mod.rs:164 | `jsonlines` names the JSON Lines format |
| ParserSelect.JsonLinesIsNoExtension | src/parser/mod.rs:111-122 | a `.jsonlines` file is rejected by extension detection |
| ParserSelect.JsonLinesUnknown | src/parser/mod.rs:111-118 | `jsonlines` is not an extension the detection knows |
| ParserSelect.DataJsonLines | src/parser/mod.rs:106-108 | the extension of `data.jsonlines` is `jsonlines` |
| ParserSelect.FormatIgnoresCase | src/parser/mod.rs:162 | upper or lower case in the format name makes no difference |
| ParserSelect.ExtensionIsFormatName | src/parser/mod.rs:111-118 | every extension the detection accepts is a format name selecting the same format |
| ParserSelect.DetectIgnoresCase | src/parser/mod.rs:109 | upper or lower case in the extension makes no difference |
| ParserSelect.NoExtensionRejected | src/parser/mod.rs:123-125 | a file name with no `.` after its first character is rejected as having no extension |
| ParserSelect.DetectFromContent | src/parser/mod.rs:213-240 | content sniffing never picks JSON Lines or TOML, and fails only with an unsupported-format error |
| ParserSelect.Sniff | src/parser/mod.rs:217-239 | the tests on the trimmed text never pick JSON Lines or TOML, and fail only with an unsupported-format error |
| ParserSelect.XmlDeclIsMarkup | src/parser/mod.rs:217 | the `<?xml` test is subsumed by the `<` test beside it |
| ParserSelect.MarkupSniffed | src/parser/mod.rs:217-223 | markup is HTML exactly when it mentions `<!DOCTYPE html` or `<html`, and XML otherwise |
| ParserSelect.JsonSniffed | src/parser/mod.rs:224-225 | JSON is chosen exactly for a text opening with `{` or `[` after whitespace |
| ParserSelect.JsonOpening | src/parser/mod.rs:224-225 | a text opening with `{` or `[` is JSON |
| ParserSelect.SniffFails | src/parser/mod.rs:235-239 | detection fails exactly when none of the openings matches and the text has no `:` or has a `::` |
| ParserSelect.TrimStartSkipsWhite | src/parser/mod.rs:214 | trimming the start skips any leading whitespace |
| ParserSelect.ContentIgnoresLeadingWhite | src/parser/mod.rs:214 | leading whitespace never changes the detected format |
| ParserSelect.FirstCharDiffers | src/parser/mod.rs:217-231 | a text whose first character differs from a prefix's does not start with it |
| ParserSelect.DnOpensLdif | src/parser/mod.rs:226-227 | a text opening with `dn:` is LDIF |
| ParserSelect.Base64LineUnknown | src/parser/mod.rs:231-239 | a text opening with a base64 attribute line `cn:: ...` is not recognised at all |
| Settings.DefaultConfig | src/config.rs:54-108 | the defaults: theme `dark`, expanded depth 0, streaming enabled above 104857600 bytes, 10 lines per page scroll |
| Settings.Validate | src/config.rs:166-198 | a config is valid exactly when the theme is `dark` or `light`, the depth at least -1, the threshold and the page scroll positive; the checks run in that order and the first that fails names the error |
| Settings.DefaultIsValid | src/config.rs:54-108 | the default configuration is valid |
| Settings.DepthBoundary | src/config.rs:176-180 | depth -1 is accepted and -2 rejected |
| Settings.DefaultWithOneBadField | src/config.rs:166-198 | a default config with one field made invalid fails with that field's error message |
| Settings.ErrorsDistinct | src/config.rs:166-198 | the four error messages differ, so the error tells which check failed |
| TreeViewUi.VisibleHead | src/ui/tree_view.rs:106-116 | a node's own row comes first, and a collapsed node shows nothing else |
| TreeViewUi.VisibleDepths | src/ui/tree_view.rs:106-116 | every row after a subtree's first lies deeper than it |
| TreeViewUi.VisibleAllDepths | src/ui/tree_view.rs:110-115 | every row of the children lies at least at their depth |
| TreeViewUi.ParentAboveShift | src/ui/tree_view.rs:106-116 | a row's parent row stays above it when rows are put in front |
| TreeViewUi.ParentAbovePrefix | src/ui/tree_view.rs:106-116 | a row's parent row stays above it when rows are appended |
| TreeViewUi.VisiblePreOrder | src/ui/tree_view.rs:106-116 | pre-order: every row after the first has an earlier row one level up whose node is expanded and lists the row's node as a child |
| TreeViewUi.RowsUnderParent | src/ui/tree_view.rs:106-116 | an expanded node's row followed by its children's rows is in pre-order |
| TreeViewUi.RowUnderParent | src/ui/tree_view.rs:110-115 | each such row has its parent row above it |
| TreeViewUi.ParentAboveAt | src/ui/tree_view.rs:110-115 | an earlier expanded row one level up holding the node as a child is a parent row |
| TreeViewUi.ChildRowsAppend | src/ui/tree_view.rs:110-115 | appending one child's subtree rows keeps the children's rows in pre-order |
| TreeViewUi.VisibleAllPreOrder | src/ui/tree_view.rs:110-115 | the rows of an expanded node's children: each row at child depth is one of its children, each deeper row has its parent row above it |
| TreeViewUi.FuelSuffices | src/ui/tree_view.rs:106-116 | on an arena whose children follow their parent, leaves apart, as many levels as nodes reach every node, so the level bound never cuts the recursion |
| TreeViewUi.FuelSufficesAll | src/ui/tree_view.rs:110-115 | the same for the children's rows |
| TreeViewUi.VisibleInRange | src/ui/tree_view.rs:106-116 | when every child id names a node, every row collected below an existing node names a node |
| TreeViewUi.VisibleAllInRange | src/ui/tree_view.rs:111-114 | the same for the children's rows |
| TreeViewUi.UpDown | src/ui/tree_view.rs:118-145 | the selection stays on a row, and away from both ends a step down and a step up cancel |
| TreeViewUi.Flip | src/ui/tree_view.rs:152-156 | flipping changes the membership of that node and of no other |
| TreeViewUi.FlipTwice | src/ui/tree_view.rs:152-156 | flipping twice restores the expanded set |
| TreeViewUi.SelectedId | src/ui/tree_view.rs:173-177 | a node exactly when the selection is on a row, and then that row's node |
| TreeViewUi.TreeView.constructor | src/ui/tree_view.rs:18-30 | only the root is expanded, the first row selected and no row collected yet |
| TreeViewUi.TreeView.RebuildVisibleNodes | src/ui/tree_view.rs:101-104 | the rows become those of the whole tree from the root at depth 0; the expansion and the selection stay; every row names a node when the root and every child id do, which is what `toggle_expand` needs |
| TreeViewUi.TreeView.CollectVisibleNodes | src/ui/tree_view.rs:106-116 | the rows of the subtree at `id` are appended, the expansion and the selection unchanged |
| TreeViewUi.TreeView.NavigateUp | src/ui/tree_view.rs:118-130 | the selection moves one row up, saturating at 0 |
| TreeViewUi.TreeView.NavigateDown | src/ui/tree_view.rs:132-145 | the rows are rebuilt, then the selection moves one row down, clamped at the last row, and stays on a row; every row names a node when the root and every child id do |
| TreeViewUi.TreeView.ToggleExpand | src/ui/tree_view.rs:147-160 | the selected node's expansion flips when it has children; nothing else changes |
| TreeViewUi.TreeView.Collapse | src/ui/tree_view.rs:162-171 | the selected node leaves the expanded set; nothing else changes |
| TreeViewUi.TreeView.GetSelectedNodeId | src/ui/tree_view.rs:173-177 | the node of the selected row, if the selection is on a row |
| TreeViewUi.VisibleRowsShape | src/ui/tree_view.rs:101-116 | the rows of a whole tree start with the root at depth 0, go deeper after it, and are in pre-order |
| DetailViewUi.Render | src/ui/detail_view.rs:144-158 | one line per group, each the group's words joined by single spaces |
| DetailViewUi.RenderPush | src/ui/detail_view.rs:145-153 | one loop step: the word extends the current line when the line, a space and the word fit in the width in bytes, and starts a new line otherwise |
| DetailViewUi.WrapText | src/ui/detail_view.rs:136-165 | at width 0, or for a text without words, the text itself as the only line; otherwise the lines of the greedy grouping of the words |
| DetailViewUi.PushKeeps | src/ui/detail_view.rs:145-153 | one step keeps every line non-empty and appends the word to the words in order |
| DetailViewUi.WrapKeepsWords | src/ui/detail_view.rs:144-158 | every line holds at least one word, and the lines hold exactly the words, in order |
| DetailViewUi.UnwordsAppend | src/ui/detail_view.rs:147-149 | adding a word to a line grows it by one space and the word's bytes |
| DetailViewUi.WrapFits | src/ui/detail_view.rs:147 | a line of two or more words fits the width |
| DetailViewUi.PushGreedy | src/ui/detail_view.rs:147-153 | one step keeps the lines greedy |
| DetailViewUi.WrapGreedy | src/ui/detail_view.rs:144-154 | greedy: a line ends only because the next line's first word would not fit after it |
| DetailViewUi.WordWithinLine | src/ui/detail_view.rs:147 | a word is no longer than a line holding it |
| DetailViewUi.LongWordAlone | src/ui/detail_view.rs:150-153 | a word wider than the width gets a line to itself |
| DetailViewUi.JoinConcat | src/ui/detail_view.rs:148-149 | joining two non-empty lists of words is joining each and putting a separator between |
| DetailViewUi.RenderJoin | src/ui/detail_view.rs:144-158 | the lines rejoined by single spaces are the words rejoined by single spaces |
| DetailViewUi.FlattenHasFirst | src/ui/detail_view.rs:144-158 | lines whose first is non-empty hold some word |
| DetailViewUi.WrapTextSpec | src/ui/detail_view.rs:136-165 | for a positive width and a text with words: at least one line, the lines rejoined equal the words rejoined, and every line holding a space fits the width |
| DetailViewUi.OneWordNoSpace | src/ui/detail_view.rs:144 | a one-word line holds no space |
| DetailViewUi.FlattenMember | src/ui/detail_view.rs:144-158 | every word of every line is one of the words |

## Left out

- Reading files, and the file-system calls around them, are not modelled. Each builder starts from the text or the decoded value it would read. For the streaming tree, "the file opens" is a boolean parameter.
- The progress bar of `build_ldif_index` is left out, because it only displays progress.
- The byte offsets and line counts kept in each index entry are left out. They only serve the disk read in `get_node`, and the node that read produces is discarded.
- That disk read, its seek, and its `MAX_LINES` limit of 1000 lines are one boolean parameter, `ioOk`, of `GetNode` and `LoadNode`. The lines read are never used.
- `LdifIndex::get_entry_mut` is left out. No code in the modelled core calls it.
- Attribute grouping uses a `HashMap`, but its iteration order is never observed: the keys are sorted before use. The model groups the values in a `map`, which has no order either.
- `while let Some(Ok(line))` loops stop at the first read error; they are modelled as loops over lines that read successfully.
- The third-party decoders are left out; their results are modelled as datatypes:
  - serde_json, serde_yaml and the toml crate give a decoded value, or an error message;
  - quick_xml gives a sequence of events;
  - scraper gives a DOM.
- Floating-point numbers in JSON, YAML and TOML are carried as the text the decoder would print for them.
- HTML attributes are taken in the order the DOM gives them. scraper's own attribute ordering is not modelled.
- Dn.GetParentDn: the model covers only DNs made of single-byte characters, and counts positions in characters. `get_parent_dn` counts the separator's position over `dn.chars()` (src/parser/ldif.rs:293) but cuts the text at that number as a byte offset (src/parser/ldif.rs:304). On a DN with a multi-byte character before its first separator the source therefore cuts at the wrong byte. It returns a shifted parent: `"é,dc=x"` gives `",dc=x"` where the model gives `"dc=x"`. Or it panics when the offset is not a character boundary, as for `"éé,x"`. `Dn.ComputeRdn`, and through it the entry captions of both LDIF builders, inherit this restriction, because they are computed from that parent.
- Base64: the decode error message is "Base64 decode error" without the crate's detail of what went wrong.
- `src/error.rs` has no `Config` or TOML parse variant, although `config.rs` and `toml.rs` raise them; the model adds both. Error messages are modelled word for word for config validation, parser selection and the LDIF record and attribute errors; the messages of the JSON, YAML, TOML and XML decoding libraries and the detail of a Base64 decoding error are abstracted to their kind.
- The `#[cfg(test)]` modules are not modelled. Their claims about concrete literals are stated as general lemmas instead.
- TreeViewUi.Visible: `collect_visible_nodes` recurses without a bound. The model bounds the recursion by the number of nodes. `FuelSuffices` shows that the bound changes nothing when every child comes after its parent or has no children (`Arena.ChildrenFollowOrLeaf`). Every builder's tree meets that order: JSON, JSON Lines, TOML and LDIF trees are `Linked`, XML states keep `ChildrenFollow`, `YamlTreeShape` gives `ChildrenFollow`, and `HtmlTreeShape` gives `ChildrenFollowOrLeaf`, since HTML attribute leaves come before the container that lists them. A cyclic arena, where the source would not terminate, is not modelled.
- The list widget's state is modelled as the selected row, `selected`, alone. Its scrolling offset is left out.
- The `render`, `create_list_item` and other drawing functions of the tree and detail panes are left out. They only draw and do not change the navigation state.
- `Config::from_file`, `Config::load` and the XDG configuration path lookup are left out, because they read files. Only the defaults and `validate` are modelled.
- ParserSelect: paths are split with `/` only. Windows separators and the other corner cases of `Path::extension` are not modelled.
- ParserSelect: `to_lowercase` is modelled as ASCII lower-casing. The two differ only on non-ASCII letters, which never occur in an accepted extension or format name.
- The parsers' `can_parse` methods are left out. Parser selection goes through `detect_parser`, which does not call them.
- `usize` ids are modelled as unbounded naturals. No arena or index can reach 2^64 nodes.
