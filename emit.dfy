/** The shape shared by the recursive `convert_value` builders of the JSON,
    JSON Lines, YAML and TOML parsers: a value is turned into a template
    (`Gen`) of the nodes it will produce, and the builder appends that
    template to the arena in pre-order, the node before its children and the
    children left to right. */
module Templates {
  import opened Wrappers
  import opened Node
  import opened Arena
  import opened Text

  /** A node still to be added, with the nodes to add below it. */
  datatype Gen = Gen(caption: string, nodeType: string, attributes: seq<Attribute>, kids: seq<Gen>)

  /** The node a template adds, before any child is linked to it. */
  function NodeOf(g: Gen): (n: TreeNode)
    ensures n == TreeNode(g.caption, g.nodeType, g.attributes, [], None)
  {
    NewNode(g.caption, g.nodeType).(attributes := g.attributes)
  }

  /** Number of nodes a template adds. */
  function GenSize(g: Gen): (r: nat)
    ensures r >= 1
    decreases g, 1
  {
    1 + KidsSize(g.kids)
  }

  function KidsSize(ks: seq<Gen>): nat
    decreases ks, 0
  {
    if ks == [] then 0 else KidsSize(ks[..|ks| - 1]) + GenSize(ks[|ks| - 1])
  }

  /** Adding one node under `p`: with `link`, `add_child_node(p, n)`; without,
      `add_node(n)` followed by `get_node_mut(p).add_child(id)`. */
  function Attach(a: Nodes, p: nat, n: TreeNode, link: bool): (r: Nodes)
    ensures |r| == |a| + 1
  {
    if link then AddChildNodeTo(a, p, n) else AppendChildAt(a + [n], p, |a|)
  }

  /** The arena after `convert_value` has added template `g` under `p`. */
  function Emit(a: Nodes, p: nat, g: Gen, link: bool): Nodes
    decreases GenSize(g), 1
  {
    EmitKids(Attach(a, p, NodeOf(g), link), |a|, g.kids, link)
  }

  /** The arena after the loop over a node's children has added `ks` under `q`. */
  function EmitKids(a: Nodes, q: nat, ks: seq<Gen>, link: bool): Nodes
    decreases KidsSize(ks), 2
  {
    if ks == [] then a
    else Emit(EmitKids(a, q, ks[..|ks| - 1], link), q, ks[|ks| - 1], link)
  }

  /** The ids the templates `ks` receive when added from id `base` on. */
  function KidStarts(base: nat, ks: seq<Gen>): (r: seq<nat>)
    ensures |r| == |ks|
  {
    if ks == [] then [] else KidStarts(base, ks[..|ks| - 1]) + [base + KidsSize(ks[..|ks| - 1])]
  }

  /** Adding a template appends exactly GenSize nodes, touches no earlier node
      other than the parent, appends the new id to the parent's children, and
      gives the new node the template's caption, type and attributes, the ids
      of its children's nodes as children, and a parent link to `p` exactly
      when `link`. */
  lemma {:induction false} EmitShape(a: Nodes, p: nat, g: Gen, link: bool)
    requires p < |a|
    ensures var r := Emit(a, p, g, link);
      && |r| == |a| + GenSize(g)
      && r[..|a|] == AppendChildAt(a, p, |a|)
      && r[|a|] == NodeOf(g).(children := KidStarts(|a| + 1, g.kids), parentId := if link then Some(p) else None)
    decreases GenSize(g), 1
  {
    var b := Attach(a, p, NodeOf(g), link);
    EmitKidsShape(b, |a|, g.kids, link);
    var r := Emit(a, p, g, link);
    assert r[..|a|] == b[..|a|];
  }

  lemma {:induction false} EmitKidsShape(a: Nodes, q: nat, ks: seq<Gen>, link: bool)
    requires q < |a|
    ensures var r := EmitKids(a, q, ks, link);
      && |r| == |a| + KidsSize(ks)
      && r[..|a|] == a[q := a[q].(children := a[q].children + KidStarts(|a|, ks))]
    decreases KidsSize(ks), 2
  {
    if ks == [] {
      assert a[q].children + [] == a[q].children;
    } else {
      var init := ks[..|ks| - 1];
      var b := EmitKids(a, q, init, link);
      EmitKidsShape(a, q, init, link);
      EmitShape(b, q, ks[|ks| - 1], link);
      var r := EmitKids(a, q, ks, link);
      var s0 := KidStarts(|a|, init);
      assert KidStarts(|a|, ks) == s0 + [|b|];
      var want := a[q := a[q].(children := a[q].children + KidStarts(|a|, ks))];
      forall i | 0 <= i < |a| ensures r[i] == want[i] {
        assert r[i] == AppendChildAt(b, q, |b|)[i];
        assert b[i] == b[..|a|][i];
        if i == q {
          assert a[q].children + s0 + [|b|] == a[q].children + (s0 + [|b|]);
        }
      }
      assert r[..|a|] == want;
    }
  }

  /** A builder that links parents keeps the arena invariant: every node it
      adds names its parent, follows it, and is listed among its children. */
  lemma {:induction false} EmitKeepsLinked(a: Nodes, p: nat, g: Gen)
    requires Linked(a) && p < |a|
    ensures Linked(Emit(a, p, g, true))
    decreases GenSize(g), 1
  {
    AddChildNodeKeepsLinked(a, p, NodeOf(g));
    EmitKidsKeepLinked(Attach(a, p, NodeOf(g), true), |a|, g.kids);
  }

  lemma {:induction false} EmitKidsKeepLinked(a: Nodes, q: nat, ks: seq<Gen>)
    requires Linked(a) && q < |a|
    ensures Linked(EmitKids(a, q, ks, true))
    decreases KidsSize(ks), 2
  {
    if ks != [] {
      var init := ks[..|ks| - 1];
      EmitKidsKeepLinked(a, q, init);
      EmitKidsShape(a, q, init, true);
      EmitKeepsLinked(EmitKids(a, q, init, true), q, ks[|ks| - 1]);
    }
  }

  /** Whether or not it links parents, a builder adds every node after its
      parent and lists it there, so children keep following their parents. */
  lemma {:induction false} EmitKeepsFollow(a: Nodes, p: nat, g: Gen, link: bool)
    requires ChildrenFollow(a) && p < |a|
    ensures ChildrenFollow(Emit(a, p, g, link))
    decreases GenSize(g), 1
  {
    var n := if link then NodeOf(g).(parentId := Some(p)) else NodeOf(g);
    PushKeepsFollow(a, n);
    AppendChildKeepsFollow(a + [n], p, |a|);
    assert Attach(a, p, NodeOf(g), link) == AppendChildAt(a + [n], p, |a|);
    EmitKidsKeepFollow(Attach(a, p, NodeOf(g), link), |a|, g.kids, link);
  }

  lemma {:induction false} EmitKidsKeepFollow(a: Nodes, q: nat, ks: seq<Gen>, link: bool)
    requires ChildrenFollow(a) && q < |a|
    ensures ChildrenFollow(EmitKids(a, q, ks, link))
    decreases KidsSize(ks), 2
  {
    if ks != [] {
      var init := ks[..|ks| - 1];
      EmitKidsKeepFollow(a, q, init, link);
      EmitKidsShape(a, q, init, link);
      EmitKeepsFollow(EmitKids(a, q, init, link), q, ks[|ks| - 1], link);
    }
  }

  /** A builder that does not link parents leaves every node it adds without
      a parent. */
  lemma {:induction false} EmitUnlinked(a: Nodes, p: nat, g: Gen)
    ensures var r := Emit(a, p, g, false);
      |r| == |a| + GenSize(g) && forall i :: |a| <= i < |r| ==> r[i].parentId == None
    decreases GenSize(g), 1
  {
    var b := Attach(a, p, NodeOf(g), false);
    EmitKidsUnlinked(b, |a|, g.kids);
    EmitKidsParentsFrame(b, |a|, g.kids, false, |a|);
  }

  lemma {:induction false} EmitKidsUnlinked(a: Nodes, q: nat, ks: seq<Gen>)
    ensures var r := EmitKids(a, q, ks, false);
      |r| == |a| + KidsSize(ks) && forall i :: |a| <= i < |r| ==> r[i].parentId == None
    decreases KidsSize(ks), 2
  {
    if ks != [] {
      var init := ks[..|ks| - 1];
      EmitKidsUnlinked(a, q, init);
      var b := EmitKids(a, q, init, false);
      EmitUnlinked(b, q, ks[|ks| - 1]);
      var r := EmitKids(a, q, ks, false);
      forall i | |a| <= i < |b| ensures r[i].parentId == None {
        EmitParentsFrame(b, q, ks[|ks| - 1], false, i);
      }
    }
  }

  /** Adding nodes never changes the parent field of an existing node. */
  lemma {:induction false} EmitParentsFrame(a: Nodes, p: nat, g: Gen, link: bool, i: nat)
    requires i < |a|
    ensures |Emit(a, p, g, link)| >= |a| && Emit(a, p, g, link)[i].parentId == a[i].parentId
    decreases GenSize(g), 1
  {
    EmitKidsParentsFrame(Attach(a, p, NodeOf(g), link), |a|, g.kids, link, i);
  }

  lemma {:induction false} EmitKidsParentsFrame(a: Nodes, q: nat, ks: seq<Gen>, link: bool, i: nat)
    requires i < |a|
    ensures |EmitKids(a, q, ks, link)| >= |a| && EmitKids(a, q, ks, link)[i].parentId == a[i].parentId
    decreases KidsSize(ks), 2
  {
    if ks != [] {
      EmitKidsParentsFrame(a, q, ks[..|ks| - 1], link, i);
      EmitParentsFrame(EmitKids(a, q, ks[..|ks| - 1], link), q, ks[|ks| - 1], link, i);
    }
  }

  /** The loop over children, one step at a time: adding one more template
      after a prefix is the same as adding the longer prefix. */
  lemma EmitKidsStep(a: Nodes, q: nat, ks: seq<Gen>, i: nat, link: bool)
    requires i < |ks|
    ensures Emit(EmitKids(a, q, ks[..i], link), q, ks[i], link) == EmitKids(a, q, ks[..i + 1], link)
  {
    assert ks[..i + 1][..i] == ks[..i];
  }

  /** `format!("{} fields", n)` / `format!("{} items", n)`. */
  function SizeText(n: nat, unit: string): string {
    NatToString(n) + " " + unit
  }
}
