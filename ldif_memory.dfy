/** The in-memory LDIF reader (`LdifFileParser`, src/parser/ldif.rs:27-205):
    a cursor over the lines of the file that reads folded logical lines,
    records and their attribute lines, and then builds the tree. */
module LdifParser {
  import opened Wrappers
  import opened Text
  import opened Node
  import opened Arena
  import opened Dn
  import opened LdifAttr
  import opened LdifRecords
  import opened LdifTree

  // ---------------------------------------------------------------------
  // Logical lines
  // ---------------------------------------------------------------------

  /** A line that continues the previous one (RFC 2849 folding). */
  predicate IsContinuation(l: string) {
    StartsWith(l, " ")
  }

  /** The first line at or after `j` that is not a continuation line. */
  function ContEnd(lines: seq<string>, j: nat): (k: nat)
    requires j <= |lines|
    ensures j <= k <= |lines|
    ensures k < |lines| ==> !IsContinuation(lines[k])
    ensures forall m :: j <= m < k ==> IsContinuation(lines[m])
    decreases |lines| - j
  {
    if j < |lines| && IsContinuation(lines[j]) then ContEnd(lines, j + 1) else j
  }

  /** The continuation lines `j..k`, each without its one leading space. */
  function Tails(lines: seq<string>, j: nat, k: nat): string
    requires j <= k <= |lines|
    requires forall m :: j <= m < k ==> IsContinuation(lines[m])
    decreases k - j
  {
    if k == j then "" else assert IsContinuation(lines[k - 1]); Tails(lines, j, k - 1) + lines[k - 1][1..]
  }

  /** `read_logical_line` at line `i`: the line and every continuation line
      after it, joined, and the number of the line after them. Past the end
      there is nothing to read. */
  function LogicalLine(lines: seq<string>, i: nat): (r: (string, nat))
    requires i <= |lines|
    ensures i < |lines| ==> i < r.1 <= |lines| && StartsWith(r.0, lines[i])
    ensures i == |lines| ==> r == ("", i)
  {
    if i < |lines| then
      (lines[i] + Tails(lines, i + 1, ContEnd(lines, i + 1)), ContEnd(lines, i + 1))
    else ("", i)
  }

  /** A line skipped before a record: empty, or a comment. */
  predicate Skippable(l: string) {
    l == "" || StartsWith(l, "#")
  }

  function SkipBlank(lines: seq<string>, i: nat): (j: nat)
    requires i <= |lines|
    ensures i <= j <= |lines|
    ensures j < |lines| ==> !Skippable(lines[j])
    ensures forall m :: i <= m < j ==> Skippable(lines[m])
    decreases |lines| - i
  {
    if i < |lines| && Skippable(lines[i]) then SkipBlank(lines, i + 1) else i
  }

  function SkipComments(lines: seq<string>, i: nat): (j: nat)
    requires i <= |lines|
    ensures i <= j <= |lines|
    ensures j < |lines| ==> !StartsWith(lines[j], "#")
    ensures forall m :: i <= m < j ==> StartsWith(lines[m], "#")
    decreases |lines| - i
  {
    if i < |lines| && StartsWith(lines[i], "#") then SkipComments(lines, i + 1) else i
  }

  // ---------------------------------------------------------------------
  // Records
  // ---------------------------------------------------------------------

  /** The attribute loop of `parse_entry` from line `i`, with the pairs
      `acc` read so far: comments are skipped, an empty line ends the record
      and is consumed, the end of the file ends it too; a logical line
      without a colon is ignored, any other is parsed and its error, if
      any, is the result. */
  function Attrs(lines: seq<string>, i: nat, acc: seq<(string, string)>): (r: Result<(seq<(string, string)>, nat), XtvError>)
    requires i <= |lines|
    ensures r.Ok? ==> i <= r.value.1 <= |lines| && acc <= r.value.0
    decreases |lines| - i + 1, 0
  {
    if SkipComments(lines, i) == |lines| then Ok((acc, |lines|))
    else if lines[SkipComments(lines, i)] == "" then Ok((acc, SkipComments(lines, i) + 1))
    else AttrLine(lines, LogicalLine(lines, SkipComments(lines, i)), acc)
  }

  /** One logical attribute line `l` that ends before line `l.1`. */
  function AttrLine(lines: seq<string>, l: (string, nat), acc: seq<(string, string)>): (r: Result<(seq<(string, string)>, nat), XtvError>)
    requires 0 < l.1 <= |lines|
    ensures r.Ok? ==> l.1 <= r.value.1 <= |lines| && acc <= r.value.0
    decreases |lines| - l.1 + 1, 1
  {
    if l.0 == "" then Ok((acc, l.1))
    else if ':' !in l.0 then Attrs(lines, l.1, acc)
    else
      match ParseAttributeLine(l.0, l.1)
      case Err(e) => Err(e)
      case Ok(kv) => Attrs(lines, l.1, acc + [kv])
  }

  /** `parse_entry` at line `i`: blank and comment lines are skipped; at the
      end of the file there is no record; a logical line that does not start
      with `dn:` is an error carrying the number of the line after it;
      otherwise the trimmed DN and the attribute pairs up to the end of the
      record. The result holds the line where reading stopped. */
  function EntryAt(lines: seq<string>, i: nat): (r: Result<(Option<Record>, nat), XtvError>)
    requires i <= |lines|
    ensures r.Ok? ==> i <= r.value.1 <= |lines|
    ensures r.Ok? && i < |lines| ==> i < r.value.1
  {
    if SkipBlank(lines, i) == |lines| then Ok((None, |lines|))
    else DnLine(lines, LogicalLine(lines, SkipBlank(lines, i)))
  }

  /** The record that starts with the logical line `l`. */
  function DnLine(lines: seq<string>, l: (string, nat)): (r: Result<(Option<Record>, nat), XtvError>)
    requires 0 < l.1 <= |lines|
    ensures r.Ok? ==> l.1 <= r.value.1 <= |lines|
  {
    if l.0 == "" then Ok((None, l.1))
    else if !StartsWith(l.0, "dn:") then Err(LdifParse(l.1, "Expected DN, got: " + l.0))
    else
      match Attrs(lines, l.1, [])
      case Err(e) => Err(e)
      case Ok(a) => Ok((Some(Record(Trim(l.0[3..]), a.0)), a.1))
  }

  /** The loop of `parse` from line `i`, with the records `acc` read so far;
      the first error ends it. */
  function EntriesFrom(lines: seq<string>, i: nat, acc: seq<Record>): (r: Result<seq<Record>, XtvError>)
    requires i <= |lines|
    ensures r.Ok? ==> acc <= r.value
    decreases |lines| - i
  {
    if i == |lines| then Ok(acc)
    else
      match EntryAt(lines, i)
      case Err(e) => Err(e)
      case Ok(v) => EntriesFrom(lines, v.1, if v.0.Some? then acc + [v.0.value] else acc)
  }

  /** A first line starting with `version:` is passed over. */
  function VersionSkip(lines: seq<string>, i: nat): (j: nat)
    requires i <= |lines|
    ensures j <= |lines|
  {
    if i < |lines| && StartsWith(lines[i], "version:") then i + 1 else i
  }

  /** The records of a whole file. */
  function ParseRecords(lines: seq<string>): Result<seq<Record>, XtvError> {
    EntriesFrom(lines, VersionSkip(lines, 0), [])
  }

  /** `LdifParser::parse`: the records of the text's lines, as a tree. */
  function ParseLdif(content: string): Result<Nodes, XtvError> {
    match ParseRecords(Lines(content))
    case Err(e) => Err(e)
    case Ok(rs) => Ok(Build(rs))
  }

  // ---------------------------------------------------------------------
  // The reader
  // ---------------------------------------------------------------------

  /** `LdifFileParser`: the lines of the file and a cursor into them. */
  class LdifFileParser {
    const lines: seq<string>
    var lineNum: nat

    ghost predicate Valid()
      reads this
    {
      lineNum <= |lines|
    }

    /** `LdifFileParser::new`: the text split as `str::lines` does. */
    constructor(content: string)
      ensures lines == Lines(content) && lineNum == 0 && Valid()
    {
      lines := Lines(content);
      lineNum := 0;
    }

    function PeekLine(): (r: Option<string>)
      reads this
      ensures r.Some? <==> lineNum < |lines|
      ensures r.Some? ==> r.value == lines[lineNum]
    {
      if lineNum < |lines| then Some(lines[lineNum]) else None
    }

    /** `read_logical_line`. */
    method ReadLogicalLine() returns (r: string)
      requires Valid()
      modifies this
      ensures Valid() && (r, lineNum) == LogicalLine(lines, old(lineNum))
    {
      r := "";
      var start := lineNum;
      if lineNum < |lines| {
        r := r + lines[lineNum];
        lineNum := lineNum + 1;
      }
      while lineNum < |lines| && IsContinuation(lines[lineNum])
        invariant start < |lines| ==> start < lineNum <= ContEnd(lines, start + 1)
        invariant start < |lines| ==> r == lines[start] + Tails(lines, start + 1, lineNum)
        invariant start == |lines| ==> lineNum == start && r == ""
        decreases |lines| - lineNum
      {
        r := r + lines[lineNum][1..];
        lineNum := lineNum + 1;
      }
      if start < |lines| {
        ContEndIsFirst(lines, start + 1, lineNum);
      }
    }

    /** `parse_entry`. */
    method ParseEntry() returns (r: Result<Option<Record>, XtvError>)
      requires Valid()
      modifies this
      ensures Valid()
      ensures EntryAt(lines, old(lineNum)).Ok? ==> r == Ok(EntryAt(lines, old(lineNum)).value.0) && lineNum == EntryAt(lines, old(lineNum)).value.1
      ensures EntryAt(lines, old(lineNum)).Err? ==> r == Err(EntryAt(lines, old(lineNum)).error)
    {
      ghost var start := lineNum;
      while lineNum < |lines| && Skippable(lines[lineNum])
        invariant lineNum <= |lines| && SkipBlank(lines, lineNum) == SkipBlank(lines, start)
        decreases |lines| - lineNum
      {
        lineNum := lineNum + 1;
      }
      if lineNum >= |lines| {
        return Ok(None);
      }
      ghost var at := lineNum;
      var logical := ReadLogicalLine();
      if logical == "" {
        return Ok(None);
      }
      if !StartsWith(logical, "dn:") {
        return Err(LdifParse(lineNum, "Expected DN, got: " + logical));
      }
      var dn := Trim(logical[3..]);
      var attributes := ReadAttributes();
      if attributes.Err? {
        return Err(attributes.error);
      }
      return Ok(Some(Record(dn, attributes.value)));
    }

    /** The attribute loop of `parse_entry`. */
    method ReadAttributes() returns (r: Result<seq<(string, string)>, XtvError>)
      requires Valid()
      modifies this
      ensures Valid()
      ensures Attrs(lines, old(lineNum), []).Ok? ==> r == Ok(Attrs(lines, old(lineNum), []).value.0) && lineNum == Attrs(lines, old(lineNum), []).value.1
      ensures Attrs(lines, old(lineNum), []).Err? ==> r == Err(Attrs(lines, old(lineNum), []).error)
    {
      var attributes := [];
      ghost var first := lineNum;
      while true
        invariant Valid()
        invariant Attrs(lines, lineNum, attributes) == Attrs(lines, first, [])
        decreases |lines| - lineNum
      {
        ghost var head := lineNum;
        while lineNum < |lines| && StartsWith(lines[lineNum], "#")
          invariant head <= lineNum <= |lines|
          invariant SkipComments(lines, lineNum) == SkipComments(lines, head)
          decreases |lines| - lineNum
        {
          lineNum := lineNum + 1;
        }
        if lineNum >= |lines| {
          return Ok(attributes);
        }
        if lines[lineNum] == "" {
          lineNum := lineNum + 1;
          return Ok(attributes);
        }
        var line := ReadLogicalLine();
        if line == "" {
          return Ok(attributes);
        }
        if ':' in line {
          var pair := ParseAttributeLine(line, lineNum);
          if pair.Err? {
            return Err(pair.error);
          }
          attributes := attributes + [pair.value];
        }
      }
    }

    /** `parse`: an optional version line, then records until the end of
        the file or the first error, then `build_tree`. */
    method Parse() returns (r: Result<Tree, XtvError>)
      requires Valid()
      modifies this
      ensures var rs := EntriesFrom(lines, VersionSkip(lines, old(lineNum)), []);
        && (r.Ok? <==> rs.Ok?)
        && (r.Ok? ==> fresh(r.value) && r.value.nodes == Build(rs.value))
        && (r.Err? ==> r.error == rs.error)
    {
      var first := PeekLine();
      if first.Some? && StartsWith(first.value, "version:") {
        lineNum := lineNum + 1;
      }
      var entries := [];
      while lineNum < |lines|
        invariant Valid()
        invariant EntriesFrom(lines, lineNum, entries) == EntriesFrom(lines, VersionSkip(lines, old(lineNum)), [])
        decreases |lines| - lineNum
      {
        var entry := ParseEntry();
        if entry.Err? {
          return Err(entry.error);
        }
        if entry.value.Some? {
          entries := entries + [entry.value.value];
        }
      }
      var tree := BuildTree(entries);
      return Ok(tree);
    }

    /** `build_tree`: one entry node per record below the entry of its
        parent DN when an earlier record registered it, below the root
        otherwise; then its `@attributes` node and one leaf per sorted,
        indexed attribute value. */
    method BuildTree(entries: seq<Record>) returns (tree: Tree)
      ensures fresh(tree) && tree.nodes == Build(entries) && tree.rootId == 0
    {
      tree := new Tree(RootNode());
      var dnToNode: map<string, nat> := map[];
      for k := 0 to |entries|
        invariant fresh(tree) && tree.rootId == 0
        invariant tree.nodes == Build(entries[..k]) && dnToNode == MapOf(entries[..k])
      {
        BuildSize(entries[..k]);
        dnToNode := AddRecord(tree, dnToNode, entries[k]);
        BuildLast(entries, k);
        MapOfLast(entries, k);
      }
      assert entries[..|entries|] == entries;
    }
  }

  /** The body of `build_tree`'s loop for one record. */
  method AddRecord(tree: Tree, dnToNode: map<string, nat>, entry: Record) returns (m: map<string, nat>)
    requires tree.rootId == 0
    modifies tree
    ensures tree.nodes == AddEntry(old(tree.nodes), EntryParent(dnToNode, entry.dn), EntryLabel(dnToNode, entry.dn), AttrItems(entry))
    ensures m == dnToNode[entry.dn := |old(tree.nodes)|]
  {
    var parentDn := GetParentDnScan(entry.dn);
    var rootId := tree.RootId();
    var parentId := if parentDn.Some? && parentDn.value in dnToNode then dnToNode[parentDn.value] else rootId;
    var rdn := ComputeRdn(entry.dn, if parentId == rootId then None else parentDn);
    var entryId := tree.AddChildNode(parentId, NewNode(rdn, EntryType));
    m := dnToNode[entry.dn := entryId];
    var virtualId := tree.AddChildNode(entryId, VirtualNode());
    var items := AttrItems(entry);
    AddLeaves(tree, virtualId, items);
  }

  /** The inner loops of `build_tree`: one attribute node per item, each
      added below the `@attributes` node. */
  method AddLeaves(tree: Tree, virtualId: nat, items: seq<Attribute>)
    modifies tree
    ensures tree.nodes == AddChildrenTo(old(tree.nodes), virtualId, Leaves(items))
  {
    ghost var leaves := Leaves(items);
    for j := 0 to |items|
      invariant tree.nodes == AddChildrenTo(old(tree.nodes), virtualId, leaves[..j])
    {
      var _ := tree.AddChildNode(virtualId, AttrLeaf(items[j]));
      assert leaves[..j + 1][..j] == leaves[..j];
    }
    assert leaves[..|items|] == leaves;
  }

  /** `ContEnd` is the first line from `j` on that does not continue. */
  lemma ContEndIsFirst(lines: seq<string>, j: nat, k: nat)
    requires j <= k <= |lines|
    requires forall m :: j <= m < k ==> IsContinuation(lines[m])
    requires k < |lines| ==> !IsContinuation(lines[k])
    ensures ContEnd(lines, j) == k
    decreases k - j
  {
    if j < k {
      ContEndIsFirst(lines, j + 1, k);
    }
  }

  // ---------------------------------------------------------------------
  // Properties
  // ---------------------------------------------------------------------

  /** Lines indented by one space each, as RFC 2849 folds a long line. */
  function Indented(parts: seq<string>): (ls: seq<string>)
    ensures |ls| == |parts| && forall k :: 0 <= k < |parts| ==> ls[k] == " " + parts[k]
  {
    seq(|parts|, k requires 0 <= k < |parts| => " " + parts[k])
  }

  function Concat(parts: seq<string>): string {
    if parts == [] then "" else Concat(parts[..|parts| - 1]) + parts[|parts| - 1]
  }

  /** Unfolding undoes folding: a line followed by indented pieces reads
      back as the line and the pieces joined, up to the next line that is
      not indented. */
  lemma FoldRoundTrip(first: string, parts: seq<string>, rest: seq<string>)
    requires rest == [] || !IsContinuation(rest[0])
    ensures LogicalLine([first] + Indented(parts) + rest, 0) == (first + Concat(parts), |parts| + 1)
  {
    var lines := [first] + Indented(parts) + rest;
    FoldedLines(first, parts, rest);
    ContEndIsFirst(lines, 1, |parts| + 1);
    TailsOfIndented(lines, parts, |parts|);
    assert parts[..|parts|] == parts;
  }

  lemma FoldedLines(first: string, parts: seq<string>, rest: seq<string>)
    requires rest == [] || !IsContinuation(rest[0])
    ensures var lines := [first] + Indented(parts) + rest;
      && |lines| == |parts| + 1 + |rest| && lines[0] == first
      && (forall k :: 0 <= k < |parts| ==> lines[k + 1] == " " + parts[k])
      && (forall m :: 1 <= m < |parts| + 1 ==> IsContinuation(lines[m]))
      && (|parts| + 1 < |lines| ==> !IsContinuation(lines[|parts| + 1]))
  {
    var pre := [first] + Indented(parts);
    var lines := pre + rest;
    forall k | 0 <= k < |parts| ensures lines[k + 1] == " " + parts[k] {
      assert lines[k + 1] == Indented(parts)[k];
    }
    forall m | 1 <= m < |parts| + 1 ensures IsContinuation(lines[m]) {
      assert lines[m] == " " + parts[m - 1];
      IndentedContinues(parts[m - 1]);
    }
    if rest != [] {
      assert lines[|pre|] == rest[0];
    }
  }

  lemma IndentedContinues(p: string)
    ensures IsContinuation(" " + p)
  {
    assert (" " + p)[..1] == " ";
  }

  lemma {:induction false} TailsOfIndented(lines: seq<string>, parts: seq<string>, n: nat)
    requires n <= |parts| && |parts| + 1 <= |lines|
    requires forall k :: 0 <= k < |parts| ==> lines[k + 1] == " " + parts[k]
    requires forall m :: 1 <= m < |parts| + 1 ==> IsContinuation(lines[m])
    ensures Tails(lines, 1, n + 1) == Concat(parts[..n])
  {
    if n > 0 {
      TailsOfIndented(lines, parts, n - 1);
      assert parts[..n][..n - 1] == parts[..n - 1];
      assert lines[n][1..] == parts[n - 1];
    }
  }

  /** A logical line read where a non-empty line starts is never empty, so
      the emptiness checks after `read_logical_line` in `parse_entry` never
      fire. */
  lemma LogicalLineNonEmpty(lines: seq<string>, i: nat)
    requires i < |lines| && lines[i] != ""
    ensures LogicalLine(lines, i).0 != ""
  {
    assert LogicalLine(lines, i).0[0] == lines[i][0];
  }

  /** A file of nothing but empty and comment lines holds no record, so it
      parses to the root alone, without children. */
  lemma BlankInput(content: string)
    requires forall k :: 0 <= k < |Lines(content)| ==> Skippable(Lines(content)[k])
    ensures ParseLdif(content) == Ok([RootNode()]) && RootNode().children == []
  {
    var lines := Lines(content);
    if lines != [] {
      assert !StartsWith(lines[0], "version:") by {
        if StartsWith(lines[0], "version:") {
          FirstChar(lines[0], "version:");
          FirstChar(lines[0], "#");
        }
      }
      assert VersionSkip(lines, 0) == 0;
      assert SkipBlank(lines, 0) == |lines|;
      assert EntryAt(lines, 0) == Ok((None, |lines|));
      assert EntriesFrom(lines, |lines|, []) == Ok([]);
    }
  }

  lemma FirstChar(s: string, p: string)
    requires p != [] && StartsWith(s, p)
    ensures s[0] == p[0]
  {
    assert s[..|p|][0] == p[0];
  }

  /** A leading `version:` line is passed over; read as a record it would
      be the error of a missing DN. */
  lemma VersionLineSkipped(lines: seq<string>)
    requires lines != [] && StartsWith(lines[0], "version:")
    ensures ParseRecords(lines) == EntriesFrom(lines, 1, [])
    ensures EntryAt(lines, 0) == Err(LdifParse(LogicalLine(lines, 0).1, "Expected DN, got: " + LogicalLine(lines, 0).0))
  {
    var l := LogicalLine(lines, 0).0;
    FirstChar(lines[0], "version:");
    assert !Skippable(lines[0]) by {
      if StartsWith(lines[0], "#") {
        FirstChar(lines[0], "#");
      }
    }
    FirstChar(l, lines[0]);
    assert !StartsWith(l, "dn:") by {
      if StartsWith(l, "dn:") {
        FirstChar(l, "dn:");
      }
    }
    assert SkipBlank(lines, 0) == 0;
  }

  /** A record whose first logical line is not a `dn:` line fails the whole
      parse, with the number of the line after that logical line. */
  lemma NotADnIsFatal(lines: seq<string>)
    requires SkipBlank(lines, VersionSkip(lines, 0)) < |lines|
    requires !StartsWith(LogicalLine(lines, SkipBlank(lines, VersionSkip(lines, 0))).0, "dn:")
    ensures var l := LogicalLine(lines, SkipBlank(lines, VersionSkip(lines, 0)));
      ParseRecords(lines) == Err(LdifParse(l.1, "Expected DN, got: " + l.0))
  {
    var j := SkipBlank(lines, VersionSkip(lines, 0));
    LogicalLineNonEmpty(lines, j);
  }

  /** A carriage return not followed by a line feed is no line ending: the
      text `"\r"` is one line holding it, and that line fails as a record
      without a DN. */
  lemma BareCarriageReturnFails()
    ensures ParseLdif("\r") == Err(LdifParse(1, "Expected DN, got: \r"))
  {
    LinesSplit("\r", "");
    var lines := Lines("\r");
    assert lines == ["\r"];
    assert !StartsWith(lines[0], "#") by {
      if StartsWith(lines[0], "#") {
        FirstChar(lines[0], "#");
      }
    }
    assert VersionSkip(lines, 0) == 0;
    assert SkipBlank(lines, 0) == 0;
    assert ContEnd(lines, 1) == 1;
    assert Tails(lines, 1, 1) == "";
    var l := LogicalLine(lines, 0);
    assert l.0 == "\r" && l.1 == 1 by {
      assert lines[0] + "" == "\r";
    }
    assert !StartsWith(l.0, "dn:");
    NotADnIsFatal(lines);
    assert "Expected DN, got: " + l.0 == "Expected DN, got: \r";
  }

  /** Whatever the in-memory parser builds keeps the arena invariant: ids
      are positions, parents precede their children, the root is node 0 and
      every registered DN names an entry node. */
  lemma ParsedTreeLinked(content: string)
    requires ParseLdif(content).Ok?
    ensures Inv(ParseLdif(content).value, MapOf(ParseRecords(Lines(content)).value))
  {
    BuildInv(ParseRecords(Lines(content)).value);
  }
}
