/** The JSON Lines tree builder (src/parser/jsonlines.rs): every non-blank
    line is one JSON document, placed whole under the root. The line decoder
    (serde_json) is a parameter. */
module JsonLinesParser {
  import opened Wrappers
  import opened Node
  import opened Arena
  import opened Templates
  import opened Text
  import opened JsonParser

  /** A line that is empty once trimmed (all whitespace) is skipped. */
  predicate Blank(line: string) {
    AllWhite(line)
  }

  /** The templates the lines put under the root, in line order, or the error
      of the first line that fails to decode. A line at zero-based position
      `k` is labelled `[k+1]`. */
  function Scan(lines: seq<string>, decode: string -> Result<Json, string>): Result<seq<Gen>, string> {
    if lines == [] then Ok([])
    else
      var k := |lines| - 1;
      match Scan(lines[..k], decode)
      case Err(e) => Err(e)
      case Ok(gs) =>
        if Blank(lines[k]) then Ok(gs)
        else match decode(Trim(lines[k]))
          case Err(e) => Err(e)
          case Ok(v) => Ok(gs + [JsonGen(v, IndexLabel(k + 1))])
  }

  /** Zero-based positions of the non-blank lines. */
  function NonBlank(lines: seq<string>): (ks: seq<nat>)
    ensures forall j :: 0 <= j < |ks| ==> ks[j] < |lines| && !Blank(lines[ks[j]])
    ensures forall j, l :: 0 <= j < l < |ks| ==> ks[j] < ks[l]
  {
    if lines == [] then []
    else
      var k := |lines| - 1;
      NonBlank(lines[..k]) + (if Blank(lines[k]) then [] else [k])
  }

  /** `g` is the template of the line at position `k`, whose document decodes. */
  predicate LineGen(line: string, k: nat, decode: string -> Result<Json, string>, g: Gen) {
    decode(Trim(line)).Ok? && g == JsonGen(decode(Trim(line)).value, IndexLabel(k + 1))
  }

  /** When no line fails, the root gets one child per non-blank line, in
      order, labelled with its one-based physical line number (skipped lines
      still count) and built from that line's document. */
  lemma {:induction false} ScanOk(lines: seq<string>, decode: string -> Result<Json, string>)
    requires Scan(lines, decode).Ok?
    ensures var gs := Scan(lines, decode).value; var ks := NonBlank(lines);
      && |gs| == |ks|
      && forall j :: 0 <= j < |ks| ==> LineGen(lines[ks[j]], ks[j], decode, gs[j])
  {
    if lines != [] {
      var n := |lines| - 1;
      var pre := lines[..n];
      ScanOk(pre, decode);
      var gs0, ks0 := Scan(pre, decode).value, NonBlank(pre);
      var gs, ks := Scan(lines, decode).value, NonBlank(lines);
      if Blank(lines[n]) {
        assert gs == gs0 && ks == ks0;
      } else {
        assert gs == gs0 + [JsonGen(decode(Trim(lines[n])).value, IndexLabel(n + 1))];
        assert ks == ks0 + [n];
      }
      forall j | 0 <= j < |ks| ensures LineGen(lines[ks[j]], ks[j], decode, gs[j]) {
        if j < |ks0| {
          assert ks[j] == ks0[j] && gs[j] == gs0[j];
          assert pre[ks0[j]] == lines[ks0[j]];
        }
      }
    }
  }

  /** A non-blank line whose document does not decode. */
  predicate Fails(line: string, decode: string -> Result<Json, string>) {
    !Blank(line) && decode(Trim(line)).Err?
  }

  /** The parse fails exactly when some non-blank line fails to decode. */
  lemma ScanErr(lines: seq<string>, decode: string -> Result<Json, string>)
    ensures Scan(lines, decode).Err? <==> exists k :: 0 <= k < |lines| && Fails(lines[k], decode)
  {
    if Scan(lines, decode).Err? {
      ErrHasFailingLine(lines, decode);
    }
    if k :| 0 <= k < |lines| && Fails(lines[k], decode) {
      FailingLineErrs(lines, decode, k);
    }
  }

  lemma {:induction false} FailingLineErrs(lines: seq<string>, decode: string -> Result<Json, string>, k: nat)
    requires k < |lines| && Fails(lines[k], decode)
    ensures Scan(lines, decode).Err?
  {
    var n := |lines| - 1;
    var pre := lines[..n];
    if k < n {
      assert Fails(pre[k], decode) by {
        assert pre[k] == lines[k];
      }
      FailingLineErrs(pre, decode, k);
    }
    assert Scan(pre, decode).Err? || Fails(lines[n], decode);
    ScanStep(lines, decode);
  }

  lemma {:induction false} ErrHasFailingLine(lines: seq<string>, decode: string -> Result<Json, string>)
    requires Scan(lines, decode).Err?
    ensures exists k :: 0 <= k < |lines| && Fails(lines[k], decode)
  {
    var n := |lines| - 1;
    var pre := lines[..n];
    ScanStep(lines, decode);
    if Scan(pre, decode).Err? {
      ErrHasFailingLine(pre, decode);
      var k :| 0 <= k < n && Fails(pre[k], decode);
      assert pre[k] == lines[k];
    } else {
      assert Fails(lines[n], decode);
    }
  }

  /** One more line fails the scan exactly when the scan so far failed or the
      line itself fails. */
  lemma ScanStep(lines: seq<string>, decode: string -> Result<Json, string>)
    requires lines != []
    ensures Scan(lines, decode).Err? <==> Scan(lines[..|lines| - 1], decode).Err? || Fails(lines[|lines| - 1], decode)
  {
  }

  /** The arena `JsonLinesParser::parse` returns when every line decodes. */
  function JsonlTree(gs: seq<Gen>): Nodes {
    EmitKids([RootNode()], 0, gs, true)
  }

  /** Each document stays one root child (objects and arrays are not
      flattened into the root), and the tree is linked. */
  lemma RootChildrenPerLine(lines: seq<string>, decode: string -> Result<Json, string>)
    requires Scan(lines, decode).Ok?
    ensures var a := JsonlTree(Scan(lines, decode).value);
      Linked(a) && |a[0].children| == |NonBlank(lines)|
  {
    var gs := Scan(lines, decode).value;
    ScanOk(lines, decode);
    assert Linked([RootNode()]);
    EmitKidsKeepLinked([RootNode()], 0, gs);
    EmitKidsShape([RootNode()], 0, gs, true);
    var a := JsonlTree(gs);
    assert a[0] == a[..1][0];
  }

  /** `JsonLinesParser::parse` over the lines of the text. */
  method Parse(content: string, decode: string -> Result<Json, string>) returns (r: Result<Tree, XtvError>)
    ensures Scan(Lines(content), decode).Err? ==> r == Err(JsonParse(Scan(Lines(content), decode).error))
    ensures Scan(Lines(content), decode).Ok? ==>
      r.Ok? && fresh(r.value) && r.value.nodes == JsonlTree(Scan(Lines(content), decode).value)
  {
    r := ParseLines(Lines(content), decode);
  }

  /** The loop of `JsonLinesParser::parse` over the lines. */
  method ParseLines(lines: seq<string>, decode: string -> Result<Json, string>) returns (r: Result<Tree, XtvError>)
    ensures Scan(lines, decode).Err? ==> r == Err(JsonParse(Scan(lines, decode).error))
    ensures Scan(lines, decode).Ok? ==> r.Ok? && fresh(r.value) && r.value.nodes == JsonlTree(Scan(lines, decode).value)
  {
    var tree := new Tree(RootNode());
    var i := 0;
    while i < |lines|
      invariant 0 <= i <= |lines|
      invariant Scan(lines[..i], decode).Ok?
      invariant tree.nodes == JsonlTree(Scan(lines[..i], decode).value)
    {
      assert lines[..i + 1][..i] == lines[..i];
      var trimmed := Trim(lines[i]);
      TrimEmptyIffAllWhite(lines[i]);
      if trimmed == [] {
        i := i + 1;
        continue;
      }
      var decoded := decode(trimmed);
      if decoded.Err? {
        ScanErrPrefix(lines, i + 1, decode);
        return Err(JsonParse(decoded.error));
      }
      ghost var gs := Scan(lines[..i], decode).value;
      EmitKidsStep([RootNode()], 0, gs + [JsonGen(decoded.value, IndexLabel(i + 1))], |gs|, true);
      assert (gs + [JsonGen(decoded.value, IndexLabel(i + 1))])[..|gs|] == gs;
      ConvertValue(tree, 0, decoded.value, IndexLabel(i + 1));
      i := i + 1;
    }
    assert lines[..|lines|] == lines;
    return Ok(tree);
  }

  /** Once a prefix of the lines fails, the whole text fails with the same error. */
  lemma {:induction false} ScanErrPrefix(lines: seq<string>, n: nat, decode: string -> Result<Json, string>)
    requires n <= |lines| && Scan(lines[..n], decode).Err?
    ensures Scan(lines, decode) == Scan(lines[..n], decode)
    decreases |lines| - n
  {
    if n < |lines| {
      assert lines[..n + 1][..n] == lines[..n];
      ScanErrPrefix(lines, n + 1, decode);
    } else {
      assert lines[..n] == lines;
    }
  }
}
