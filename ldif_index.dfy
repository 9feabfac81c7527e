/** `build_ldif_index` (src/parser/ldif.rs:347-539): the single pass over an
    LDIF file that fills the index of a streaming tree. It reads the lines
    through one forward iterator and never backs up, so its view of the
    records differs from the in-memory parser's; on the records it does see
    it builds the same shape of tree. */
module LdifStream {
  import opened Wrappers
  import opened Text
  import opened Node
  import opened Arena
  import opened Dn
  import opened LdifAttr
  import opened LdifRecords
  import opened LdifTree
  import opened LdifParser
  import Streaming

  // ---------------------------------------------------------------------
  // The scan, as functions of the lines
  // ---------------------------------------------------------------------

  /** `line.trim().is_empty()`: the streaming scan separates records by
      lines that are empty after trimming, not only by empty lines. */
  predicate Blank(l: string) {
    Trim(l) == ""
  }

  /** The folding loop after a `dn:` line: continuation lines are appended
      without their first space; the first other line is kept aside (the
      source's `next_line_buf`), empty at the end of input. */
  function FoldDn(lines: seq<string>, j: nat, dn: string): (r: (string, string, nat))
    requires j <= |lines|
    ensures j <= r.2 <= |lines|
    ensures r.2 == j ==> j == |lines| && r == (dn, "", j)
    decreases |lines| - j
  {
    if j == |lines| then (dn, "", j)
    else if IsContinuation(lines[j]) then FoldDn(lines, j + 1, dn + lines[j][1..])
    else (dn, lines[j], j + 1)
  }

  /** The folding loop after an attribute line: continuation lines are
      appended, and the first other line is read and then dropped. */
  function FoldAttr(lines: seq<string>, j: nat, l: string): (r: (string, nat))
    requires j <= |lines|
    ensures j <= r.1 <= |lines|
    decreases |lines| - j
  {
    if j == |lines| then (l, j)
    else if IsContinuation(lines[j]) then FoldAttr(lines, j + 1, l + lines[j][1..])
    else (l, j + 1)
  }

  /** The free `parse_attribute_line`: a line that does not parse is
      dropped without an error. */
  function Parsed(l: string): seq<(string, string)> {
    match ParseAttributeLine(l, 0)
    case Ok(kv) => [kv]
    case Err(_) => []
  }

  /** The attribute loop: a blank line ends the record, a comment is
      skipped, anything else is folded and parsed. */
  function AttrLoop(lines: seq<string>, j: nat, acc: seq<(string, string)>): (r: (seq<(string, string)>, nat))
    requires j <= |lines|
    ensures j <= r.1 <= |lines|
    decreases |lines| - j
  {
    if j == |lines| then (acc, j)
    else if Blank(lines[j]) then (acc, j + 1)
    else if StartsWith(lines[j], "#") then AttrLoop(lines, j + 1, acc)
    else AttrLoop(lines, FoldAttr(lines, j + 1, lines[j]).1, acc + Parsed(FoldAttr(lines, j + 1, lines[j]).0))
  }

  /** The line kept aside by the DN folding is parsed on its own when it is
      not blank. */
  function FirstAttr(buf: string): seq<(string, string)> {
    if buf != "" && !Blank(buf) then Parsed(buf) else []
  }

  /** One record starting at the `dn:` line `i`: the DN is trimmed before
      its continuations are appended; then the kept-aside line and the
      attribute loop. Returns the record and the position after it. */
  function RecordAt(lines: seq<string>, i: nat): (r: (Record, nat))
    requires i < |lines| && StartsWith(lines[i], "dn:")
    ensures i < r.1 <= |lines|
  {
    var d := FoldDn(lines, i + 1, Trim(lines[i][3..]));
    var a := AttrLoop(lines, d.2, FirstAttr(d.1));
    (Record(d.0, a.0), a.1)
  }

  /** The outer loop: blank lines, comments and any line that does not
      start a record are skipped. */
  function ScanFrom(lines: seq<string>, i: nat, acc: seq<Record>): seq<Record>
    requires i <= |lines|
    decreases |lines| - i
  {
    if i == |lines| then acc
    else if Blank(lines[i]) || StartsWith(lines[i], "#") then ScanFrom(lines, i + 1, acc)
    else if StartsWith(lines[i], "dn:") then ScanFrom(lines, RecordAt(lines, i).1, acc + [RecordAt(lines, i).0])
    else ScanFrom(lines, i + 1, acc)
  }

  /** The records the index is built from: a first `version:` line is
      consumed, any other first line is read again. */
  function ScanRecords(lines: seq<string>): seq<Record> {
    ScanFrom(lines, VersionSkip(lines, 0), [])
  }

  lemma ScanDn(lines: seq<string>, i: nat, acc: seq<Record>)
    requires i < |lines| && !Blank(lines[i]) && !StartsWith(lines[i], "#") && StartsWith(lines[i], "dn:")
    ensures ScanFrom(lines, i, acc) == ScanFrom(lines, RecordAt(lines, i).1, acc + [RecordAt(lines, i).0])
  {
  }

  lemma ScanSkip(lines: seq<string>, i: nat, acc: seq<Record>)
    requires i < |lines| && (Blank(lines[i]) || StartsWith(lines[i], "#") || !StartsWith(lines[i], "dn:"))
    ensures ScanFrom(lines, i, acc) == ScanFrom(lines, i + 1, acc)
  {
  }

  // ---------------------------------------------------------------------
  // The index, as a function of the records
  // ---------------------------------------------------------------------

  /** `add_entry` followed by `add_child(p, id)` for the new id. */
  function AddChildEntry(es: seq<Streaming.IndexEntry>, p: nat, e: Streaming.IndexEntry): (r: seq<Streaming.IndexEntry>)
    ensures |r| == |es| + 1
  {
    Streaming.AddChildAt(es + [e], p, |es|)
  }

  function AttrEntry(v: nat, item: Attribute): Streaming.IndexEntry {
    Streaming.NewIndexEntry(Some(v), Streaming.Attribute(item.key, item.value))
  }

  /** One `Attribute` entry per item below the `@attributes` entry `v`. */
  function AttrEntries(es: seq<Streaming.IndexEntry>, v: nat, items: seq<Attribute>): (r: seq<Streaming.IndexEntry>)
    ensures |r| == |es| + |items|
  {
    if items == [] then es
    else AddChildEntry(AttrEntries(es, v, items[..|items| - 1]), v, AttrEntry(v, items[|items| - 1]))
  }

  /** The streaming caption of an entry: always relative to the parent DN
      the DN names, whether or not that DN was seen. */
  function StreamRdn(dn: string): string {
    ComputeRdn(dn, GetParentDn(dn))
  }

  /** What one record adds to the index: its entry under `p`, the
      `@attributes` entry under it, and one entry per item. */
  function IndexRecord(es: seq<Streaming.IndexEntry>, p: nat, dn: string, items: seq<Attribute>): seq<Streaming.IndexEntry> {
    var e := |es|;
    AttrEntries(
      AddChildEntry(
        AddChildEntry(es, p, Streaming.NewIndexEntry(Some(p), Streaming.Entry(dn, StreamRdn(dn)))),
        e, Streaming.NewIndexEntry(Some(e), Streaming.VirtualAttributes)),
      e + 1, items)
  }

  function RootEntry(): Streaming.IndexEntry {
    Streaming.NewIndexEntry(None, Streaming.Root)
  }

  /** The index after the records `rs`; parents are looked up in the same
      DN map as in the in-memory builder. */
  function IndexOf(rs: seq<Record>): seq<Streaming.IndexEntry> {
    if rs == [] then [RootEntry()]
    else IndexRecord(IndexOf(rs[..|rs| - 1]), EntryParent(MapOf(rs[..|rs| - 1]), rs[|rs| - 1].dn), rs[|rs| - 1].dn, AttrItems(rs[|rs| - 1]))
  }

  lemma {:induction false} IndexSize(rs: seq<Record>)
    ensures |IndexOf(rs)| == 1 + Weight(rs)
  {
    if rs != [] {
      IndexSize(rs[..|rs| - 1]);
      AttrItemsCount(rs[|rs| - 1]);
    }
  }

  lemma IndexLast(rs: seq<Record>, r: Record)
    ensures IndexOf(rs + [r]) == IndexRecord(IndexOf(rs), EntryParent(MapOf(rs), r.dn), r.dn, AttrItems(r))
  {
    assert (rs + [r])[..|rs|] == rs;
  }

  lemma MapLast(rs: seq<Record>, r: Record, id: nat)
    requires id == 1 + Weight(rs)
    ensures MapOf(rs + [r]) == MapOf(rs)[r.dn := id]
  {
    assert (rs + [r])[..|rs|] == rs;
  }

  /** One more record, in the terms the builder's loop keeps. */
  lemma IndexStep(rs: seq<Record>, r: Record, es: seq<Streaming.IndexEntry>, m: map<string, nat>,
                  es': seq<Streaming.IndexEntry>, m': map<string, nat>)
    requires es == IndexOf(rs) && m == MapOf(rs)
    requires es' == IndexRecord(es, EntryParent(m, r.dn), r.dn, AttrItems(r)) && m' == m[r.dn := |es|]
    ensures es' == IndexOf(rs + [r]) && m' == MapOf(rs + [r])
  {
    IndexSize(rs);
    IndexLast(rs, r);
    MapLast(rs, r, |es|);
  }

  // ---------------------------------------------------------------------
  // The builder
  // ---------------------------------------------------------------------

  /** `build_ldif_index`: fails with an I/O error when the file cannot be
      opened (`opens` false); otherwise a streaming tree over the index of
      the scanned records, with an empty cache. */
  method BuildLdifIndex(lines: seq<string>, opens: bool) returns (r: Result<Streaming.StreamingTree, XtvError>)
    ensures r.Ok? <==> opens
    ensures r.Err? ==> r.error.Io?
    ensures r.Ok? ==> fresh(r.value) && r.value.Valid() && r.value.cache == []
    ensures r.Ok? ==> r.value.index == IndexOf(ScanRecords(lines)) && r.value.rootId == 0
  {
    if !opens {
      return Err(Io("Failed to open file"));
    }
    var index := BuildIndex(lines);
    r := Streaming.NewStreamingTree(index, true);
  }

  /** The scan and the index updates of `build_ldif_index`. */
  method BuildIndex(lines: seq<string>) returns (index: Streaming.LdifIndex)
    ensures fresh(index) && index.rootId == 0
    ensures index.entries == IndexOf(ScanRecords(lines))
  {
    index := new Streaming.LdifIndex(0);
    var dnToEntryId: map<string, nat> := map[];
    var rootId := index.AddEntry(RootEntry());
    var pos := 0;
    if pos < |lines| {
      pos := 1;
      if !StartsWith(lines[0], "version:") {
        pos := 0;
      }
    }
    ghost var recs: seq<Record> := [];
    while pos < |lines|
      invariant pos <= |lines| && rootId == 0
      invariant fresh(index) && index.rootId == 0
      invariant ScanFrom(lines, pos, recs) == ScanRecords(lines)
      invariant index.entries == IndexOf(recs) && dnToEntryId == MapOf(recs)
      decreases |lines| - pos
    {
      dnToEntryId, pos, recs := ScanLine(index, dnToEntryId, lines, pos, recs);
    }
  }

  /** One turn of the outer loop: the line at `at` is skipped, or starts
      a record that is read and indexed. */
  method ScanLine(index: Streaming.LdifIndex, dnToEntryId: map<string, nat>, lines: seq<string>, at: nat, ghost recs: seq<Record>)
      returns (m: map<string, nat>, pos: nat, ghost recs': seq<Record>)
    requires at < |lines| && index.rootId == 0
    requires index.entries == IndexOf(recs) && dnToEntryId == MapOf(recs)
    modifies index
    ensures at < pos <= |lines|
    ensures ScanFrom(lines, pos, recs') == ScanFrom(lines, at, recs)
    ensures index.entries == IndexOf(recs') && m == MapOf(recs')
  {
    var line := lines[at];
    if Trim(line) != "" && !StartsWith(line, "#") && StartsWith(line, "dn:") {
      ghost var rec;
      m, pos, rec := IndexRecordAt(index, dnToEntryId, lines, at);
      IndexStep(recs, rec, old(index.entries), dnToEntryId, index.entries, m);
      ScanDn(lines, at, recs);
      recs' := recs + [rec];
    } else {
      m, pos, recs' := dnToEntryId, at + 1, recs;
      ScanSkip(lines, at, recs);
    }
  }

  /** The body of the outer loop for a `dn:` line: the DN with its
      continuations, the entry, the attributes, then the `@attributes`
      entry and its children. */
  method IndexRecordAt(index: Streaming.LdifIndex, dnToEntryId: map<string, nat>, lines: seq<string>, at: nat)
      returns (m: map<string, nat>, pos: nat, ghost rec: Record)
    requires at < |lines| && StartsWith(lines[at], "dn:") && index.rootId == 0
    modifies index
    ensures (rec, pos) == RecordAt(lines, at)
    ensures index.entries == IndexRecord(old(index.entries), EntryParent(dnToEntryId, rec.dn), rec.dn, AttrItems(rec))
    ensures m == dnToEntryId[rec.dn := |old(index.entries)|]
  {
    var dn, buf;
    dn, buf, pos := FoldDnLines(lines, at + 1, Trim(lines[at][3..]));
    var entryId := AddEntryOf(index, dnToEntryId, dn);
    m := dnToEntryId[dn := entryId];
    ghost var mid := index.entries;
    var attrs := FirstAttribute(buf);
    attrs, pos := ReadIndexAttributes(lines, pos, attrs);
    var record := Record(dn, attrs);
    rec := record;
    AddAttributeEntries(index, entryId, AttrItems(record));
    assert index.entries == IndexRecord(old(index.entries), EntryParent(dnToEntryId, dn), dn, AttrItems(rec)) by {
      assert mid == AddChildEntry(old(index.entries), EntryParent(dnToEntryId, dn), Streaming.NewIndexEntry(Some(EntryParent(dnToEntryId, dn)), Streaming.Entry(dn, StreamRdn(dn))));
    }
  }

  /** The line kept aside by the DN folding, parsed when it is not blank. */
  method FirstAttribute(buf: string) returns (attrs: seq<(string, string)>)
    ensures attrs == FirstAttr(buf)
  {
    attrs := [];
    if buf != "" && Trim(buf) != "" {
      attrs := ParsePair(buf);
    }
  }

  /** `if let Ok((key, value)) = parse_attribute_line(line)`: the pair of a
      line that parses, nothing for one that does not. */
  method ParsePair(line: string) returns (pair: seq<(string, string)>)
    ensures pair == Parsed(line)
  {
    var parsed := ParseAttributeLine(line, 0);
    if parsed.Ok? {
      pair := [parsed.value];
    } else {
      pair := [];
    }
  }

  /** The DN folding loop. */
  method FoldDnLines(lines: seq<string>, start: nat, dn0: string) returns (dn: string, buf: string, pos: nat)
    requires start <= |lines|
    ensures (dn, buf, pos) == FoldDn(lines, start, dn0)
  {
    dn, buf, pos := dn0, "", start;
    while pos < |lines|
      invariant start <= pos <= |lines| && buf == ""
      invariant FoldDn(lines, pos, dn) == FoldDn(lines, start, dn0)
      decreases |lines| - pos
    {
      var next := lines[pos];
      pos := pos + 1;
      if StartsWith(next, " ") {
        dn := dn + next[1..];
      } else {
        buf := next;
        return;
      }
    }
  }

  /** The entry of a record: its parent is the entry registered for the
      parent DN, or the root; it is appended to that parent's children and
      registered under its own DN. */
  method AddEntryOf(index: Streaming.LdifIndex, dnToEntryId: map<string, nat>, dn: string) returns (entryId: nat)
    requires index.rootId == 0
    modifies index
    ensures entryId == |old(index.entries)|
    ensures var p := EntryParent(dnToEntryId, dn);
      index.entries == AddChildEntry(old(index.entries), p, Streaming.NewIndexEntry(Some(p), Streaming.Entry(dn, StreamRdn(dn))))
  {
    var parentDn := GetParentDnScan(dn);
    var parentEntryId := if parentDn.Some? && parentDn.value in dnToEntryId then dnToEntryId[parentDn.value] else index.RootId();
    var rdn := ComputeRdn(dn, parentDn);
    entryId := index.AddEntry(Streaming.NewIndexEntry(Some(parentEntryId), Streaming.Entry(dn, rdn)));
    index.AddChild(parentEntryId, entryId);
  }

  /** The attribute loop with its folding loop. */
  method ReadIndexAttributes(lines: seq<string>, start: nat, first: seq<(string, string)>) returns (attrs: seq<(string, string)>, pos: nat)
    requires start <= |lines|
    ensures (attrs, pos) == AttrLoop(lines, start, first)
  {
    attrs, pos := first, start;
    while pos < |lines|
      invariant start <= pos <= |lines|
      invariant AttrLoop(lines, pos, attrs) == AttrLoop(lines, start, first)
      decreases |lines| - pos
    {
      var line := lines[pos];
      ghost var at := pos;
      pos := pos + 1;
      if Trim(line) == "" {
        assert AttrLoop(lines, at, attrs) == (attrs, pos);
        return;
      }
      if StartsWith(line, "#") {
        assert AttrLoop(lines, at, attrs) == AttrLoop(lines, pos, attrs);
        continue;
      }
      ghost var acc := attrs;
      attrs, pos := FoldAndParse(lines, pos, line, attrs);
      assert AttrLoop(lines, at, acc) == AttrLoop(lines, pos, attrs);
    }
  }

  /** The folding loop after an attribute line, then the parse of the
      logical line. */
  method FoldAndParse(lines: seq<string>, from: nat, line: string, acc: seq<(string, string)>) returns (attrs: seq<(string, string)>, pos: nat)
    requires from <= |lines|
    ensures pos == FoldAttr(lines, from, line).1
    ensures attrs == acc + Parsed(FoldAttr(lines, from, line).0)
  {
    var logical := line;
    pos := from;
    while pos < |lines|
      invariant from <= pos <= |lines|
      invariant FoldAttr(lines, pos, logical) == FoldAttr(lines, from, line)
      decreases |lines| - pos
    {
      var next := lines[pos];
      pos := pos + 1;
      if StartsWith(next, " ") {
        logical := logical + next[1..];
      } else {
        break;
      }
    }
    var pair := ParsePair(logical);
    attrs := acc + pair;
  }

  /** The `@attributes` entry and the loop over the sorted keys and their
      values. */
  method AddAttributeEntries(index: Streaming.LdifIndex, entryId: nat, items: seq<Attribute>)
    modifies index
    ensures var v := Streaming.NewIndexEntry(Some(entryId), Streaming.VirtualAttributes);
      index.entries == AttrEntries(AddChildEntry(old(index.entries), entryId, v), |old(index.entries)|, items)
  {
    var virtualId := index.AddEntry(Streaming.NewIndexEntry(Some(entryId), Streaming.VirtualAttributes));
    index.AddChild(entryId, virtualId);
    ghost var base := index.entries;
    for k := 0 to |items|
      invariant index.entries == AttrEntries(base, virtualId, items[..k])
    {
      var attrId := index.AddEntry(AttrEntry(virtualId, items[k]));
      index.AddChild(virtualId, attrId);
      assert items[..k + 1][..k] == items[..k];
    }
    assert items[..|items|] == items;
  }
}
