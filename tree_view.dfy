// The navigation state of the tree pane (src/ui/tree_view.rs): which nodes
// are expanded, the pre-order list of visible rows and the selected row.

module TreeViewUi {
  import opened Wrappers
  import opened Node
  import Arena

  /** A visible row: a node id and its depth below the root. */
  type Row = (nat, nat)

  /** `get_children` on the arena: empty for an unknown id. */
  function ChildrenOf(a: Arena.Nodes, id: nat): seq<nat> {
    if id < |a| then a[id].children else []
  }

  /** `collect_visible_nodes(id, depth)`: the row of `id`, then, when `id`
      is expanded, the rows of each child in order one level deeper. The
      recursion is cut after `fuel` levels (see `FuelSuffices`). */
  function Visible(a: Arena.Nodes, ex: set<nat>, id: nat, depth: nat, fuel: nat): seq<Row>
    decreases fuel, 0
  {
    [(id, depth)] + (if id in ex && fuel > 0 then VisibleAll(a, ex, ChildrenOf(a, id), depth + 1, fuel - 1) else [])
  }

  /** The rows of the nodes `cs`, one after the other. */
  function VisibleAll(a: Arena.Nodes, ex: set<nat>, cs: seq<nat>, depth: nat, fuel: nat): seq<Row>
    decreases fuel, 1, |cs|
  {
    if cs == [] then []
    else VisibleAll(a, ex, cs[..|cs| - 1], depth, fuel) + Visible(a, ex, cs[|cs| - 1], depth, fuel)
  }

  /** The visible list of a whole tree: rooted at the root id, at depth 0,
      with as many levels as the arena has nodes. */
  function VisibleRows(a: Arena.Nodes, ex: set<nat>, rootId: nat): seq<Row> {
    Visible(a, ex, rootId, 0, |a|)
  }

  // ---------------------------------------------------------------------
  // Properties of the visible list
  // ---------------------------------------------------------------------

  /** A node's own row comes first, and a collapsed node shows nothing
      else. */
  lemma VisibleHead(a: Arena.Nodes, ex: set<nat>, id: nat, depth: nat, fuel: nat)
    ensures |Visible(a, ex, id, depth, fuel)| >= 1
    ensures Visible(a, ex, id, depth, fuel)[0] == (id, depth)
    ensures id !in ex ==> Visible(a, ex, id, depth, fuel) == [(id, depth)]
  {
  }

  /** Every row of a subtree lies deeper than the subtree's root row, and
      every row after the first lies strictly deeper. */
  lemma {:induction false} VisibleDepths(a: Arena.Nodes, ex: set<nat>, id: nat, depth: nat, fuel: nat)
    ensures forall k :: 0 < k < |Visible(a, ex, id, depth, fuel)| ==> Visible(a, ex, id, depth, fuel)[k].1 > depth
    decreases fuel, 0
  {
    if id in ex && fuel > 0 {
      VisibleAllDepths(a, ex, ChildrenOf(a, id), depth + 1, fuel - 1);
    }
  }

  lemma {:induction false} VisibleAllDepths(a: Arena.Nodes, ex: set<nat>, cs: seq<nat>, depth: nat, fuel: nat)
    ensures forall k :: 0 <= k < |VisibleAll(a, ex, cs, depth, fuel)| ==> VisibleAll(a, ex, cs, depth, fuel)[k].1 >= depth
    decreases fuel, 1, |cs|
  {
    if cs != [] {
      var init, last := cs[..|cs| - 1], cs[|cs| - 1];
      VisibleAllDepths(a, ex, init, depth, fuel);
      VisibleDepths(a, ex, last, depth, fuel);
      VisibleHead(a, ex, last, depth, fuel);
    }
  }

  /** Pre-order: every row but the first has an earlier row one level up
      whose node is expanded and lists the row's node among its children. */
  ghost predicate ParentAbove(a: Arena.Nodes, ex: set<nat>, rows: seq<Row>, k: nat)
    requires k < |rows|
  {
    exists j :: 0 <= j < k && rows[j].1 + 1 == rows[k].1 && rows[j].0 in ex && rows[k].0 in ChildrenOf(a, rows[j].0)
  }

  lemma ParentAboveShift(a: Arena.Nodes, ex: set<nat>, pre: seq<Row>, rows: seq<Row>, k: nat)
    requires k < |rows| && ParentAbove(a, ex, rows, k)
    ensures ParentAbove(a, ex, pre + rows, |pre| + k)
  {
    var j :| 0 <= j < k && rows[j].1 + 1 == rows[k].1 && rows[j].0 in ex && rows[k].0 in ChildrenOf(a, rows[j].0);
    assert (pre + rows)[|pre| + j] == rows[j];
  }

  lemma ParentAbovePrefix(a: Arena.Nodes, ex: set<nat>, rows: seq<Row>, post: seq<Row>, k: nat)
    requires k < |rows| && ParentAbove(a, ex, rows, k)
    ensures ParentAbove(a, ex, rows + post, k)
  {
    var j :| 0 <= j < k && rows[j].1 + 1 == rows[k].1 && rows[j].0 in ex && rows[k].0 in ChildrenOf(a, rows[j].0);
    assert (rows + post)[j] == rows[j];
  }

  lemma {:induction false} VisiblePreOrder(a: Arena.Nodes, ex: set<nat>, id: nat, depth: nat, fuel: nat)
    ensures SubtreeRows(a, ex, Visible(a, ex, id, depth, fuel))
    decreases fuel, 0
  {
    if id in ex && fuel > 0 {
      var cs := ChildrenOf(a, id);
      VisibleAllPreOrder(a, ex, id, cs, depth + 1, fuel - 1);
      RowsUnderParent(a, ex, id, depth, VisibleAll(a, ex, cs, depth + 1, fuel - 1));
    }
  }

  /** An expanded node's row followed by its children's rows. */
  lemma RowsUnderParent(a: Arena.Nodes, ex: set<nat>, id: nat, depth: nat, tail: seq<Row>)
    requires id in ex && ChildRows(a, ex, id, tail, depth + 1)
    ensures SubtreeRows(a, ex, [(id, depth)] + tail)
  {
    forall k | 0 < k < |[(id, depth)] + tail| ensures ParentAbove(a, ex, [(id, depth)] + tail, k) {
      var r := tail[k - 1];
      assert r.1 == depth + 1 ==> r.0 in ChildrenOf(a, id);
      RowUnderParent(a, ex, id, depth, tail, k);
    }
  }

  lemma RowUnderParent(a: Arena.Nodes, ex: set<nat>, id: nat, depth: nat, tail: seq<Row>, k: nat)
    requires id in ex && 0 < k <= |tail|
    requires tail[k - 1].1 == depth + 1 ==> tail[k - 1].0 in ChildrenOf(a, id)
    requires tail[k - 1].1 != depth + 1 ==> ParentAbove(a, ex, tail, k - 1)
    ensures ParentAbove(a, ex, [(id, depth)] + tail, k)
  {
    var rows := [(id, depth)] + tail;
    assert rows[k] == tail[k - 1] && rows[0] == (id, depth);
    if tail[k - 1].1 == depth + 1 {
      ParentAboveAt(a, ex, rows, 0, k);
    } else {
      ParentAboveShift(a, ex, [(id, depth)], tail, k - 1);
    }
  }

  /** Row `j` is a parent row for row `k`. */
  lemma ParentAboveAt(a: Arena.Nodes, ex: set<nat>, rows: seq<Row>, j: nat, k: nat)
    requires j < k < |rows|
    requires rows[j].1 + 1 == rows[k].1 && rows[j].0 in ex && rows[k].0 in ChildrenOf(a, rows[j].0)
    ensures ParentAbove(a, ex, rows, k)
  {
  }

  /** Every row after the first has its parent row above it. */
  ghost predicate SubtreeRows(a: Arena.Nodes, ex: set<nat>, rows: seq<Row>) {
    forall k :: 0 < k < |rows| ==> ParentAbove(a, ex, rows, k)
  }

  /** The rows below an expanded `parent` at child depth `d`: a row at depth
      `d` is one of the parent's children, a deeper row has its parent row
      above it. */
  ghost predicate ChildRows(a: Arena.Nodes, ex: set<nat>, parent: nat, rows: seq<Row>, d: nat) {
    forall k :: 0 <= k < |rows| ==>
      && rows[k].1 >= d
      && (rows[k].1 == d ==> rows[k].0 in ChildrenOf(a, parent))
      && (rows[k].1 != d ==> ParentAbove(a, ex, rows, k))
  }

  /** Appending one child's subtree rows keeps `ChildRows`. */
  lemma ChildRowsAppend(a: Arena.Nodes, ex: set<nat>, parent: nat, front: seq<Row>, back: seq<Row>, d: nat)
    requires ChildRows(a, ex, parent, front, d)
    requires |back| >= 1 && back[0].1 == d && back[0].0 in ChildrenOf(a, parent)
    requires forall k :: 0 < k < |back| ==> back[k].1 > d
    requires SubtreeRows(a, ex, back)
    ensures ChildRows(a, ex, parent, front + back, d)
  {
    var rows := front + back;
    forall k | 0 <= k < |rows|
      ensures rows[k].1 >= d
      ensures rows[k].1 == d ==> rows[k].0 in ChildrenOf(a, parent)
      ensures rows[k].1 != d ==> ParentAbove(a, ex, rows, k)
    {
      if k < |front| {
        assert rows[k] == front[k];
        if rows[k].1 != d {
          ParentAbovePrefix(a, ex, front, back, k);
        }
      } else {
        var i := k - |front|;
        assert rows[k] == back[i];
        if i > 0 {
          ParentAboveShift(a, ex, front, back, i);
        }
      }
    }
  }

  lemma {:induction false} VisibleAllPreOrder(a: Arena.Nodes, ex: set<nat>, parent: nat, cs: seq<nat>, d: nat, fuel: nat)
    requires forall c :: c in cs ==> c in ChildrenOf(a, parent)
    ensures ChildRows(a, ex, parent, VisibleAll(a, ex, cs, d, fuel), d)
    decreases fuel, 1, |cs|
  {
    if cs != [] {
      var init, last := cs[..|cs| - 1], cs[|cs| - 1];
      assert forall c :: c in init ==> c in cs;
      assert last in cs;
      VisibleAllPreOrder(a, ex, parent, init, d, fuel);
      VisiblePreOrder(a, ex, last, d, fuel);
      VisibleDepths(a, ex, last, d, fuel);
      VisibleHead(a, ex, last, d, fuel);
      ChildRowsAppend(a, ex, parent, VisibleAll(a, ex, init, d, fuel), Visible(a, ex, last, d, fuel), d);
    }
  }

  /** On an arena whose children follow their parent, leaves apart, `|a|`
      levels reach every node: more fuel gives the same rows, so the cut
      never applies and the rows are those of the unbounded recursion. */
  lemma {:induction false} FuelSuffices(a: Arena.Nodes, ex: set<nat>, id: nat, depth: nat, f1: nat, f2: nat)
    requires Arena.ChildrenFollowOrLeaf(a)
    requires (f1 + id >= |a| && f2 + id >= |a|) || ChildrenOf(a, id) == []
    ensures Visible(a, ex, id, depth, f1) == Visible(a, ex, id, depth, f2)
    decreases f1, 0
  {
    var cs := ChildrenOf(a, id);
    if id in ex && cs != [] {
      forall c | c in cs ensures id < c || ChildrenOf(a, c) == [] {
        var k :| 0 <= k < |cs| && cs[k] == c;
      }
      FuelSufficesAll(a, ex, id, cs, depth + 1, f1 - 1, f2 - 1);
    }
  }

  lemma {:induction false} FuelSufficesAll(a: Arena.Nodes, ex: set<nat>, parent: nat, cs: seq<nat>, depth: nat, f1: nat, f2: nat)
    requires Arena.ChildrenFollowOrLeaf(a)
    requires forall c :: c in cs ==> parent < c || ChildrenOf(a, c) == []
    requires f1 + parent + 1 >= |a| && f2 + parent + 1 >= |a|
    ensures VisibleAll(a, ex, cs, depth, f1) == VisibleAll(a, ex, cs, depth, f2)
    decreases f1, 1, |cs|
  {
    if cs != [] {
      var init, last := cs[..|cs| - 1], cs[|cs| - 1];
      assert forall c :: c in init ==> c in cs;
      assert last in cs;
      FuelSufficesAll(a, ex, parent, init, depth, f1, f2);
      FuelSuffices(a, ex, last, depth, f1, f2);
    }
  }

  /** Every row names a node below `n`. */
  predicate RowsBelow(rows: seq<Row>, n: nat) {
    forall k :: 0 <= k < |rows| ==> rows[k].0 < n
  }

  /** When every child id names a node, so does every row below a node
      that exists: the rows never point outside the arena. */
  lemma {:induction false} VisibleInRange(a: Arena.Nodes, ex: set<nat>, id: nat, depth: nat, fuel: nat)
    requires Arena.ChildrenInRange(a) && id < |a|
    ensures RowsBelow(Visible(a, ex, id, depth, fuel), |a|)
    decreases fuel, 0
  {
    if id in ex && fuel > 0 {
      var cs := ChildrenOf(a, id);
      forall c | c in cs ensures c < |a| {
        var k :| 0 <= k < |cs| && cs[k] == c;
      }
      VisibleAllInRange(a, ex, cs, depth + 1, fuel - 1);
    }
  }

  lemma {:induction false} VisibleAllInRange(a: Arena.Nodes, ex: set<nat>, cs: seq<nat>, depth: nat, fuel: nat)
    requires Arena.ChildrenInRange(a) && forall c :: c in cs ==> c < |a|
    ensures RowsBelow(VisibleAll(a, ex, cs, depth, fuel), |a|)
    decreases fuel, 1, |cs|
  {
    if cs != [] {
      var init, last := cs[..|cs| - 1], cs[|cs| - 1];
      assert forall c :: c in init ==> c in cs;
      assert last in cs;
      VisibleAllInRange(a, ex, init, depth, fuel);
      VisibleInRange(a, ex, last, depth, fuel);
    }
  }

  // ---------------------------------------------------------------------
  // Selection and expansion
  // ---------------------------------------------------------------------

  /** `navigate_up`'s new index: one up, saturating at 0; 0 when nothing is
      selected. */
  function Up(sel: Option<nat>): nat {
    match sel
    case None => 0
    case Some(i) => if i > 0 then i - 1 else 0
  }

  /** `navigate_down`'s new index: one down, clamped at the last row; 0
      when nothing is selected. */
  function Down(sel: Option<nat>, len: nat): nat
    requires len >= 1
  {
    match sel
    case None => 0
    case Some(i) => if i >= len - 1 then len - 1 else i + 1
  }

  /** The selection stays on a row, and away from both ends a step down
      and a step up cancel. */
  lemma UpDown(i: nat, len: nat)
    requires len >= 1
    ensures Down(Some(i), len) < len
    ensures i < len ==> Up(Some(i)) < len
    ensures i + 1 < len ==> Up(Some(Down(Some(i), len))) == i
    ensures 0 < i < len ==> Down(Some(Up(Some(i))), len) == i
    ensures Up(Some(0)) == 0 && Down(Some(len - 1), len) == len - 1
  {
  }

  /** Expanded-set membership of `id` flipped. */
  function Flip(s: set<nat>, id: nat): (r: set<nat>)
    ensures id in r <==> id !in s
    ensures forall x :: x != id ==> (x in r <==> x in s)
  {
    if id in s then s - {id} else s + {id}
  }

  /** Flipping twice restores the set. */
  lemma FlipTwice(s: set<nat>, id: nat)
    ensures Flip(Flip(s, id), id) == s
  {
  }

  /** `get_selected_node_id`: the node of the selected row, if the
      selection is on a row. */
  function SelectedId(rows: seq<Row>, sel: Option<nat>): (r: Option<nat>)
    ensures r.Some? <==> sel.Some? && sel.value < |rows|
    ensures r.Some? ==> r.value == rows[sel.value].0
  {
    if sel.Some? && sel.value < |rows| then Some(rows[sel.value].0) else None
  }

  /** The tree pane's state. `selected` stands for the selection held in
      the list widget's state. */
  class TreeView {
    var expanded: set<nat>
    var visibleNodes: seq<Row>
    var selected: Option<nat>

    /** Every visible row names a node of `tree`, which is what lets
        `toggle_expand` unwrap the node it looks up. */
    predicate RowsIn(tree: Arena.Tree)
      reads this, tree
    {
      RowsBelow(visibleNodes, |tree.nodes|)
    }

    /** `new(root_id)`: only the root is expanded, the first row is
        selected and no row has been collected yet. */
    constructor(rootId: nat)
      ensures expanded == {rootId} && visibleNodes == [] && selected == Some(0)
    {
      expanded := {rootId};
      visibleNodes := [];
      selected := Some(0);
    }

    /** `rebuild_visible_nodes`. */
    method RebuildVisibleNodes(tree: Arena.Tree)
      modifies this
      ensures visibleNodes == VisibleRows(tree.nodes, expanded, tree.rootId)
      ensures expanded == old(expanded) && selected == old(selected)
      ensures Arena.ChildrenInRange(tree.nodes) && tree.rootId < |tree.nodes| ==> RowsIn(tree)
    {
      visibleNodes := [];
      CollectVisibleNodes(tree, tree.rootId, 0, |tree.nodes|);
      if Arena.ChildrenInRange(tree.nodes) && tree.rootId < |tree.nodes| {
        VisibleInRange(tree.nodes, expanded, tree.rootId, 0, |tree.nodes|);
      }
    }

    /** `collect_visible_nodes`: appends the rows of the subtree at `id`. */
    method CollectVisibleNodes(tree: Arena.Tree, id: nat, depth: nat, fuel: nat)
      modifies this
      ensures visibleNodes == old(visibleNodes) + Visible(tree.nodes, expanded, id, depth, fuel)
      ensures expanded == old(expanded) && selected == old(selected)
      decreases fuel
    {
      visibleNodes := visibleNodes + [(id, depth)];
      if id in expanded && fuel > 0 {
        var children := tree.GetChildren(id);
        assert children == ChildrenOf(tree.nodes, id);
        for k := 0 to |children|
          invariant expanded == old(expanded) && selected == old(selected)
          invariant visibleNodes == old(visibleNodes) + [(id, depth)] + VisibleAll(tree.nodes, expanded, children[..k], depth + 1, fuel - 1)
        {
          CollectVisibleNodes(tree, children[k], depth + 1, fuel - 1);
          assert children[..k + 1][..k] == children[..k];
        }
        assert children[..|children|] == children;
      }
    }

    /** `navigate_up`. */
    method NavigateUp()
      modifies this
      ensures selected == Some(Up(old(selected)))
      ensures expanded == old(expanded) && visibleNodes == old(visibleNodes)
    {
      var i := match selected
        case Some(i) => if i > 0 then i - 1 else 0
        case None => 0;
      selected := Some(i);
    }

    /** `navigate_down`: rebuilds the rows first, so the clamp uses the
        current list, which always holds at least the root row. */
    method NavigateDown(tree: Arena.Tree)
      modifies this
      ensures visibleNodes == VisibleRows(tree.nodes, expanded, tree.rootId)
      ensures selected == Some(Down(old(selected), |visibleNodes|))
      ensures selected.value < |visibleNodes| && SelectedId(visibleNodes, selected).Some?
      ensures expanded == old(expanded)
      ensures Arena.ChildrenInRange(tree.nodes) && tree.rootId < |tree.nodes| ==> RowsIn(tree)
    {
      RebuildVisibleNodes(tree);
      VisibleHead(tree.nodes, expanded, tree.rootId, 0, |tree.nodes|);
      var i := match selected
        case Some(i) => if i >= |visibleNodes| - 1 then |visibleNodes| - 1 else i + 1
        case None => 0;
      selected := Some(i);
    }

    /** `toggle_expand`: flips the selected node's expansion, but only when
        the node has children. */
    method ToggleExpand(tree: Arena.Tree)
      requires RowsIn(tree)
      modifies this
      ensures visibleNodes == old(visibleNodes) && selected == old(selected) && RowsIn(tree)
      ensures var id := SelectedId(visibleNodes, selected);
        expanded == if id.Some? && HasChildren(tree.nodes[id.value]) then Flip(old(expanded), id.value) else old(expanded)
    {
      if selected.Some? && selected.value < |visibleNodes| {
        var nodeId := visibleNodes[selected.value].0;
        var node := tree.GetNode(nodeId);
        if HasChildren(node.value) {
          if nodeId in expanded {
            expanded := expanded - {nodeId};
          } else {
            expanded := expanded + {nodeId};
          }
        }
      }
    }

    /** `collapse`: the selected node leaves the expanded set; the selection
        stays where it is. */
    method Collapse(tree: Arena.Tree)
      modifies this
      ensures var id := SelectedId(visibleNodes, selected);
        expanded == if id.Some? then old(expanded) - {id.value} else old(expanded)
      ensures visibleNodes == old(visibleNodes) && selected == old(selected)
    {
      if selected.Some? && selected.value < |visibleNodes| {
        var nodeId := visibleNodes[selected.value].0;
        if nodeId in expanded {
          expanded := expanded - {nodeId};
        }
      }
    }

    /** `get_selected_node_id`. */
    function GetSelectedNodeId(): (r: Option<nat>)
      reads this
      ensures r == SelectedId(visibleNodes, selected)
    {
      if selected.Some? && selected.value < |visibleNodes| then Some(visibleNodes[selected.value].0) else None
    }
  }

  /** The rows of a whole tree start with the root at depth 0, go deeper
      after it, and list every other node below an expanded row one level
      up that holds it as a child. */
  lemma VisibleRowsShape(a: Arena.Nodes, ex: set<nat>, rootId: nat)
    ensures var rows := VisibleRows(a, ex, rootId);
      && |rows| >= 1 && rows[0] == (rootId, 0)
      && (forall k :: 0 < k < |rows| ==> rows[k].1 > 0)
      && SubtreeRows(a, ex, rows)
  {
    VisibleHead(a, ex, rootId, 0, |a|);
    VisibleDepths(a, ex, rootId, 0, |a|);
    VisiblePreOrder(a, ex, rootId, 0, |a|);
  }
}
