/** The two LDIF builders of src/parser/ldif.rs side by side: on the same
    records they build trees of the same shape, node for node; where they
    differ is in which records and attributes they see, and in the caption
    of an entry whose parent DN was never registered. */
module LdifCompare {
  import opened Wrappers
  import opened Text
  import opened Node
  import opened Arena
  import opened Dn
  import opened LdifAttr
  import opened LdifRecords
  import opened LdifTree
  import opened LdifParser
  import opened LdifStream
  import Streaming

  // ---------------------------------------------------------------------
  // Same records, same shape
  // ---------------------------------------------------------------------

  /** An arena node and an index entry describe the same node: same parent,
      same children, and the node the index rebuilds has the same type and
      attributes, and the same caption except for entries. */
  predicate MirrorsNode(n: TreeNode, e: Streaming.IndexEntry) {
    && n.parentId == e.parentId
    && n.children == e.children
    && n.nodeType == Streaming.NodeOf(e.nodeType).nodeType
    && n.attributes == Streaming.NodeOf(e.nodeType).attributes
    && (!e.nodeType.Entry? ==> n.caption == Streaming.NodeOf(e.nodeType).caption)
  }

  predicate Mirrors(a: Nodes, es: seq<Streaming.IndexEntry>) {
    |a| == |es| && forall i :: 0 <= i < |a| ==> MirrorsNode(a[i], es[i])
  }

  /** `add_child_node` on the arena and `add_entry` + `add_child` on the
      index keep the two in step. */
  lemma MirrorsPush(a: Nodes, es: seq<Streaming.IndexEntry>, p: nat, n: TreeNode, e: Streaming.IndexEntry)
    requires Mirrors(a, es)
    requires n.children == [] && MirrorsNode(n.(parentId := Some(p)), e)
    ensures Mirrors(AddChildNodeTo(a, p, n), AddChildEntry(es, p, e))
  {
    var a', es' := AddChildNodeTo(a, p, n), AddChildEntry(es, p, e);
    forall i | 0 <= i < |a'| ensures MirrorsNode(a'[i], es'[i]) {
      if i == |a| {
        assert a'[i].(children := []) == n.(parentId := Some(p));
      }
    }
  }

  lemma {:induction false} MirrorsLeaves(a: Nodes, es: seq<Streaming.IndexEntry>, v: nat, items: seq<Attribute>)
    requires Mirrors(a, es)
    ensures Mirrors(AddChildrenTo(a, v, Leaves(items)), AttrEntries(es, v, items))
  {
    if items != [] {
      var init, last := items[..|items| - 1], items[|items| - 1];
      assert Leaves(items)[..|items| - 1] == Leaves(init);
      MirrorsLeaves(a, es, v, init);
      MirrorsPush(AddChildrenTo(a, v, Leaves(init)), AttrEntries(es, v, init), v, AttrLeaf(last), AttrEntry(v, last));
    }
  }

  /** One record: the entry, its `@attributes` node and the leaves on the
      arena side match the entries the index adds, whatever the caption. */
  lemma MirrorsStep(a: Nodes, es: seq<Streaming.IndexEntry>, p: nat, caption: string, dn: string, items: seq<Attribute>)
    requires Mirrors(a, es)
    ensures Mirrors(AddEntry(a, p, caption, items), IndexRecord(es, p, dn, items))
  {
    var e := |es|;
    var es1 := AddChildEntry(es, p, Streaming.NewIndexEntry(Some(p), Streaming.Entry(dn, StreamRdn(dn))));
    var es2 := AddChildEntry(es1, e, Streaming.NewIndexEntry(Some(e), Streaming.VirtualAttributes));
    MirrorsPush(a, es, p, NewNode(caption, EntryType), Streaming.NewIndexEntry(Some(p), Streaming.Entry(dn, StreamRdn(dn))));
    MirrorsPush(AddChildNodeTo(a, p, NewNode(caption, EntryType)), es1, e, VirtualNode(),
                Streaming.NewIndexEntry(Some(e), Streaming.VirtualAttributes));
    MirrorsLeaves(EntryAndVirtual(a, p, caption), es2, e + 1, items);
  }

  /** On the same records the index describes the in-memory arena node for
      node: same ids, parents, children, types and attributes. */
  lemma {:induction false} SameRecordsSameShape(rs: seq<Record>)
    ensures Mirrors(Build(rs), LdifStream.IndexOf(rs))
  {
    if rs != [] {
      var init, r := rs[..|rs| - 1], rs[|rs| - 1];
      SameRecordsSameShape(init);
      MirrorsStep(Build(init), LdifStream.IndexOf(init), EntryParent(MapOf(init), r.dn), EntryLabel(MapOf(init), r.dn), r.dn, AttrItems(r));
    }
  }

  /** The links of the index are those of a linked arena: children have
      larger ids and point back at their parent, children lists increase,
      and every parent lists its child. */
  ghost predicate IndexLinked(es: seq<Streaming.IndexEntry>) {
    && |es| >= 1 && es[0].parentId == None
    && (forall i, k :: 0 <= i < |es| && 0 <= k < |es[i].children| ==>
          var c := es[i].children[k]; i < c < |es| && es[c].parentId == Some(i))
    && (forall i, k, l :: 0 <= i < |es| && 0 <= k < l < |es[i].children| ==>
          es[i].children[k] < es[i].children[l])
    && (forall c :: 0 <= c < |es| && es[c].parentId.Some? ==>
          es[c].parentId.value < c && c in es[es[c].parentId.value].children)
  }

  lemma MirrorsLinked(a: Nodes, es: seq<Streaming.IndexEntry>)
    requires Mirrors(a, es) && Linked(a)
    ensures IndexLinked(es)
  {
    assert MirrorsNode(a[0], es[0]);
    forall i, k | 0 <= i < |es| && 0 <= k < |es[i].children|
      ensures var c := es[i].children[k]; i < c < |es| && es[c].parentId == Some(i)
    {
      assert MirrorsNode(a[i], es[i]);
      var c := a[i].children[k];
      assert MirrorsNode(a[c], es[c]);
    }
    forall i, k, l | 0 <= i < |es| && 0 <= k < l < |es[i].children|
      ensures es[i].children[k] < es[i].children[l]
    {
      assert MirrorsNode(a[i], es[i]);
    }
    forall c | 0 <= c < |es| && es[c].parentId.Some?
      ensures es[c].parentId.value < c && c in es[es[c].parentId.value].children
    {
      assert MirrorsNode(a[c], es[c]);
      assert MirrorsNode(a[a[c].parentId.value], es[es[c].parentId.value]);
    }
  }

  /** The streaming index is as well linked as the in-memory arena. */
  lemma IndexOfLinked(rs: seq<Record>)
    ensures IndexLinked(LdifStream.IndexOf(rs))
  {
    SameRecordsSameShape(rs);
    BuildInv(rs);
    MirrorsLinked(Build(rs), LdifStream.IndexOf(rs));
  }

  // ---------------------------------------------------------------------
  // Where the builders differ
  // ---------------------------------------------------------------------

  /** Captions. Below a registered parent both builders label an entry by
      the part of its DN before `,parent`. When the parent DN was never
      registered the entry hangs below the root in both trees, but the
      in-memory entry is labelled by its whole DN and the streaming entry
      keeps the short label. */
  lemma CaptionOfOrphan(m: map<string, nat>, x: string, p: string)
    requires Clean(x) && p != [] && Trim(p) == p
    ensures StreamRdn(x + "," + p) == Trim(x)
    ensures p in m ==> EntryParent(m, x + "," + p) == m[p]
    ensures p in m && m[p] != 0 ==> EntryLabel(m, x + "," + p) == Trim(x)
    ensures p !in m ==> EntryParent(m, x + "," + p) == 0 && EntryLabel(m, x + "," + p) == Trim(x + "," + p)
  {
    RdnOfOwnParent(x, p);
  }

  /** The attribute scan reads nothing before its starting line. */
  lemma {:induction false} FoldAttrFrom(lines: seq<string>, lines': seq<string>, j: nat, l: string)
    requires j <= |lines| == |lines'|
    requires forall k :: j <= k < |lines| ==> lines[k] == lines'[k]
    ensures FoldAttr(lines, j, l) == FoldAttr(lines', j, l)
    decreases |lines| - j
  {
    if j < |lines| && IsContinuation(lines[j]) {
      FoldAttrFrom(lines, lines', j + 1, l + lines[j][1..]);
    }
  }

  lemma {:induction false} AttrLoopFrom(lines: seq<string>, lines': seq<string>, j: nat, acc: seq<(string, string)>)
    requires j <= |lines| == |lines'|
    requires forall k :: j <= k < |lines| ==> lines[k] == lines'[k]
    ensures AttrLoop(lines, j, acc) == AttrLoop(lines', j, acc)
    decreases |lines| - j
  {
    if j < |lines| && !Blank(lines[j]) {
      if StartsWith(lines[j], "#") {
        AttrLoopFrom(lines, lines', j + 1, acc);
      } else {
        var f := FoldAttr(lines, j + 1, lines[j]);
        FoldAttrFrom(lines, lines', j + 1, lines[j]);
        AttrLoopFrom(lines, lines', f.1, acc + Parsed(f.0));
      }
    }
  }

  /** Look-ahead. After an attribute line that is not folded, the streaming
      scan reads the next line to look for a continuation and drops it:
      that line never contributes, whatever it holds. */
  lemma LookAheadDropped(lines: seq<string>, j: nat, acc: seq<(string, string)>, z: string)
    requires j + 1 < |lines| && !Blank(lines[j]) && !StartsWith(lines[j], "#")
    requires !IsContinuation(lines[j + 1]) && !IsContinuation(z)
    ensures AttrLoop(lines, j, acc) == AttrLoop(lines, j + 2, acc + Parsed(lines[j]))
    ensures AttrLoop(lines[j + 1 := z], j, acc) == AttrLoop(lines, j, acc)
  {
    var lines' := lines[j + 1 := z];
    assert FoldAttr(lines', j + 1, lines[j]) == (lines[j], j + 2);
    AttrLoopFrom(lines, lines', j + 2, acc + Parsed(lines[j]));
  }

  /** A line that no continuation follows is its own logical line. */
  lemma UnfoldedLine(lines: seq<string>, j: nat)
    requires j < |lines|
    requires j + 1 == |lines| || !IsContinuation(lines[j + 1])
    ensures LogicalLine(lines, j) == (lines[j], j + 1)
  {
    assert ContEnd(lines, j + 1) == j + 1;
    assert lines[j] + "" == lines[j];
  }

  /** The in-memory reader, on the same lines, goes on with the next line. */
  lemma MemoryReadsNextLine(lines: seq<string>, j: nat, acc: seq<(string, string)>)
    requires j + 1 < |lines| && lines[j] != "" && !StartsWith(lines[j], "#") && ':' in lines[j]
    requires !IsContinuation(lines[j + 1]) && ParseAttributeLine(lines[j], j + 1).Ok?
    ensures Attrs(lines, j, acc) == Attrs(lines, j + 1, acc + [ParseAttributeLine(lines[j], j + 1).value])
  {
    UnfoldedLine(lines, j);
  }

  /** A line of whitespace only, a tab say, ends a record for the streaming
      scan; the in-memory reader passes over it and reads on, since only an
      empty line ends its records. */
  lemma WhitespaceLine(lines: seq<string>, j: nat, acc: seq<(string, string)>)
    requires j < |lines| && lines[j] != "" && AllWhite(lines[j])
    requires j + 1 == |lines| || !IsContinuation(lines[j + 1])
    ensures AttrLoop(lines, j, acc) == (acc, j + 1)
    ensures Attrs(lines, j, acc) == Attrs(lines, j + 1, acc)
  {
    TrimEmptyIffAllWhite(lines[j]);
    assert !StartsWith(lines[j], "#") by {
      assert IsWhite(lines[j][0]);
    }
    assert SkipComments(lines, j) == j;
    UnfoldedLine(lines, j);
    assert ':' !in lines[j] by {
      forall k | 0 <= k < |lines[j]| ensures lines[j][k] != ':' {
        assert IsWhite(lines[j][k]);
      }
    }
  }

  /** An empty line right after the `dn:` line: the in-memory reader ends
      the record there, without attributes; the streaming scan keeps it
      aside as the first attribute line, parses nothing from it, and goes on
      reading attributes from the line after it. */
  lemma EmptyLineAfterDn(lines: seq<string>, i: nat)
    requires i + 1 < |lines| && StartsWith(lines[i], "dn:") && lines[i + 1] == ""
    ensures var a := AttrLoop(lines, i + 2, []);
      RecordAt(lines, i) == (Record(Trim(lines[i][3..]), a.0), a.1)
    ensures Attrs(lines, i + 1, []) == Ok(([], i + 2))
  {
    assert SkipComments(lines, i + 1) == i + 1;
  }

  /** A scan over lines none of which starts a record finds no record. */
  lemma {:induction false} NoDnNoRecords(lines: seq<string>, i: nat, acc: seq<Record>)
    requires i <= |lines|
    requires forall k :: i <= k < |lines| ==> !StartsWith(lines[k], "dn:")
    ensures ScanFrom(lines, i, acc) == acc
    decreases |lines| - i
  {
    if i < |lines| {
      ScanSkip(lines, i, acc);
      NoDnNoRecords(lines, i + 1, acc);
    }
  }

  /** Text that is not LDIF: the streaming index has the root alone, the
      in-memory parser fails on the first line it reads. */
  lemma StrayText(lines: seq<string>)
    requires forall k :: 0 <= k < |lines| ==> !StartsWith(lines[k], "dn:") && !IsContinuation(lines[k])
    requires SkipBlank(lines, VersionSkip(lines, 0)) < |lines|
    ensures LdifStream.IndexOf(ScanRecords(lines)) == [RootEntry()]
    ensures ParseRecords(lines).Err?
  {
    var j := SkipBlank(lines, VersionSkip(lines, 0));
    NoDnNoRecords(lines, VersionSkip(lines, 0), []);
    UnfoldedLine(lines, j);
    NotADnIsFatal(lines);
  }

  /** DN folding. The in-memory reader joins the `dn:` line with its
      continuations and then trims; the streaming scan trims the first line
      before it appends the continuations, so whitespace at the end of the
      first line or of a continuation is kept or dropped differently. */
  lemma DnFolding(x: string, y: string, rest: seq<string>)
    requires rest == [] || !IsContinuation(rest[0])
    ensures var lines := ["dn:" + x, " " + y] + rest;
      && LogicalLine(lines, 0) == ("dn:" + x + y, 2)
      && FoldDn(lines, 1, Trim(lines[0][3..])) == (Trim(x) + y, if rest == [] then "" else rest[0], if rest == [] then 2 else 3)
  {
    var lines := ["dn:" + x, " " + y] + rest;
    assert lines == ["dn:" + x] + Indented([y]) + rest;
    assert Concat([y]) == y by {
      assert [y][..0] == [];
    }
    FoldRoundTrip("dn:" + x, [y], rest);
    assert lines[0][3..] == x;
    IndentedContinues(y);
    assert lines[1][1..] == y;
  }

  /** The line number only goes into the error. */
  lemma LineNumberFree(l: string, n: nat)
    ensures ParseAttributeLine(l, n).Ok? <==> ParseAttributeLine(l, 0).Ok?
    ensures ParseAttributeLine(l, n).Ok? ==> ParseAttributeLine(l, n) == ParseAttributeLine(l, 0)
  {
  }

  /** An attribute line both readers parse on its own: not empty or
      blank, not a comment, not a continuation, and well formed. */
  predicate PlainAttrLine(l: string) {
    && l != "" && !Blank(l) && !StartsWith(l, "#") && !IsContinuation(l)
    && ParseAttributeLine(l, 0).Ok?
  }

  /** The lines `j..` are all plain attribute lines. */
  predicate AllPlain(lines: seq<string>, j: nat)
    requires j <= |lines|
    decreases |lines| - j
  {
    j == |lines| || (PlainAttrLine(lines[j]) && AllPlain(lines, j + 1))
  }

  /** Every pair parsed from the lines `j..`. */
  function AllParsed(lines: seq<string>, j: nat): seq<(string, string)>
    requires j <= |lines|
    decreases |lines| - j
  {
    if j == |lines| then [] else Parsed(lines[j]) + AllParsed(lines, j + 1)
  }

  /** The pairs parsed from the lines `j`, `j + 2`, `j + 4`, ... */
  function EveryOther(lines: seq<string>, j: nat): seq<(string, string)>
    requires j <= |lines|
    decreases |lines| - j
  {
    if j == |lines| then []
    else if j + 1 == |lines| then Parsed(lines[j])
    else Parsed(lines[j]) + EveryOther(lines, j + 2)
  }

  /** One line for the in-memory reader. */
  lemma MemoryLine(lines: seq<string>, j: nat, acc: seq<(string, string)>)
    requires j < |lines| && PlainAttrLine(lines[j])
    requires j + 1 == |lines| || !IsContinuation(lines[j + 1])
    ensures Attrs(lines, j, acc) == Attrs(lines, j + 1, acc + Parsed(lines[j]))
  {
    var l := lines[j];
    AttributeLineErrors(l, 0);
    LineNumberFree(l, j + 1);
    assert SkipComments(lines, j) == j;
    UnfoldedLine(lines, j);
  }

  lemma MemoryStep(lines: seq<string>, j: nat, acc: seq<(string, string)>)
    requires j < |lines| && PlainAttrLine(lines[j])
    requires j + 1 == |lines| || !IsContinuation(lines[j + 1])
    requires Attrs(lines, j + 1, acc + Parsed(lines[j])) == Ok((acc + Parsed(lines[j]) + AllParsed(lines, j + 1), |lines|))
    ensures Attrs(lines, j, acc) == Ok((acc + AllParsed(lines, j), |lines|))
  {
    var p, rest := Parsed(lines[j]), AllParsed(lines, j + 1);
    assert AllParsed(lines, j) == p + rest;
    assert acc + p + rest == acc + (p + rest) by {
      AppendAssoc(acc, p, rest);
    }
    assert Attrs(lines, j, acc) == Attrs(lines, j + 1, acc + p) by {
      MemoryLine(lines, j, acc);
    }
  }

  /** Regrouping a concatenation, kept apart so that the steps above and
      below, whose contexts hold large parser terms, use it as a fact
      rather than searching for it. */
  lemma AppendAssoc<T>(a: seq<T>, b: seq<T>, c: seq<T>)
    ensures a + b + c == a + (b + c)
  {
  }

  /** One or two more lines for the streaming loop. */
  lemma StreamStep(lines: seq<string>, j: nat, acc: seq<(string, string)>)
    requires j < |lines| && PlainAttrLine(lines[j]) && AllPlain(lines, j + 1)
    requires j + 1 < |lines| ==>
      AttrLoop(lines, j + 2, acc + Parsed(lines[j])) == (acc + Parsed(lines[j]) + EveryOther(lines, j + 2), |lines|)
    ensures AttrLoop(lines, j, acc) == (acc + EveryOther(lines, j), |lines|)
  {
    if j + 1 == |lines| {
      assert FoldAttr(lines, j + 1, lines[j]) == (lines[j], j + 1);
    } else {
      assert FoldAttr(lines, j + 1, lines[j]) == (lines[j], j + 2);
      AppendAssoc(acc, Parsed(lines[j]), EveryOther(lines, j + 2));
    }
  }

  /** Over unfolded attribute lines the in-memory reader keeps every
      line up to the end of the file. */
  lemma {:induction false} MemoryKeepsAll(lines: seq<string>, j: nat, acc: seq<(string, string)>)
    requires j <= |lines| && AllPlain(lines, j)
    ensures Attrs(lines, j, acc) == Ok((acc + AllParsed(lines, j), |lines|))
    decreases |lines| - j
  {
    if j == |lines| {
      assert acc + [] == acc;
    } else {
      MemoryKeepsAll(lines, j + 1, acc + Parsed(lines[j]));
      MemoryStep(lines, j, acc);
    }
  }

  /** Over the same lines the streaming loop keeps every other line: each
      line read drops the one after it as look-ahead. */
  lemma {:induction false} StreamKeepsEveryOther(lines: seq<string>, j: nat, acc: seq<(string, string)>)
    requires j <= |lines| && AllPlain(lines, j)
    ensures AttrLoop(lines, j, acc) == (acc + EveryOther(lines, j), |lines|)
    decreases |lines| - j
  {
    if j == |lines| {
      assert acc + [] == acc;
    } else {
      if j + 1 < |lines| {
        StreamKeepsEveryOther(lines, j + 2, acc + Parsed(lines[j]));
      }
      StreamStep(lines, j, acc);
    }
  }

  /** A record whose `dn:` line is followed by unfolded attribute lines up
      to the end of the file. The in-memory record has the pairs of all of
      them; the streaming record has the first (kept aside by the DN
      folding), then the second, fourth, sixth and so on: the third, fifth,
      ... are lost. */
  lemma RecordOfPlainLines(lines: seq<string>, i: nat)
    requires i + 1 < |lines| && StartsWith(lines[i], "dn:")
    requires AllPlain(lines, i + 1)
    ensures DnLine(lines, LogicalLine(lines, i)) == Ok((Some(Record(Trim(lines[i][3..]), AllParsed(lines, i + 1))), |lines|))
    ensures RecordAt(lines, i) == (Record(Trim(lines[i][3..]), Parsed(lines[i + 1]) + EveryOther(lines, i + 2)), |lines|)
  {
    UnfoldedLine(lines, i);
    MemoryKeepsAll(lines, i + 1, []);
    assert [] + AllParsed(lines, i + 1) == AllParsed(lines, i + 1);
    assert FoldDn(lines, i + 1, Trim(lines[i][3..])) == (Trim(lines[i][3..]), lines[i + 1], i + 2);
    StreamKeepsEveryOther(lines, i + 2, Parsed(lines[i + 1]));
  }

  /** Two records separated by an empty line, the first without attributes.
      The in-memory record ends at the empty line and the next record starts
      at the second `dn:` line. The streaming scan keeps the empty line
      aside, reads the second `dn:` line as an attribute of the first
      record, and goes on past it: no record starts there. */
  lemma NextDnAbsorbed(lines: seq<string>, i: nat)
    requires i + 2 < |lines| && StartsWith(lines[i], "dn:") && lines[i + 1] == "" && StartsWith(lines[i + 2], "dn:")
    ensures Attrs(lines, i + 1, []) == Ok(([], i + 2))
    ensures RecordAt(lines, i).1 > i + 2
  {
    EmptyLineAfterDn(lines, i);
    DnLineRead(lines[i + 2]);
    assert FoldDn(lines, i + 1, Trim(lines[i][3..])) == (Trim(lines[i][3..]), "", i + 2);
  }

  /** A `dn:` line is neither blank nor a comment. */
  lemma DnLineRead(l: string)
    requires StartsWith(l, "dn:")
    ensures !Blank(l) && !StartsWith(l, "#")
  {
    assert l[..3] == "dn:";
    assert !Blank(l) by {
      TrimEmptyIffAllWhite(l);
      assert !IsWhite(l[0]);
    }
    assert !StartsWith(l, "#") by {
      assert l[..1] == [l[0]];
    }
  }
}
