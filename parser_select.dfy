// Parser selection of src/parser/mod.rs: by file extension, by format name
// and by sniffing the content. A parser is modelled by the format it reads.

module ParserSelect {
  import opened Wrappers
  import opened Text

  datatype Format = Json | JsonLines | Xml | Html | Ldif | Toml | Yaml

  // ---------------------------------------------------------------------
  // Paths
  // ---------------------------------------------------------------------

  /** The '/'-separated pieces of a path, empty pieces included. */
  function Pieces(path: string): (ps: seq<string>)
    ensures |ps| >= 1
    ensures forall k :: 0 <= k < |ps| ==> '/' !in ps[k]
    decreases |path|
  {
    match IndexOf(path, '/')
    case None => [path]
    case Some(i) => [path[..i]] + Pieces(path[i + 1..])
  }

  /** The last normal component among `ps`: empty and `.` pieces are not
      components, and a final `..` or no component at all leaves no file
      name (`Path::file_name` on a Unix path). */
  function LastNormal(ps: seq<string>): (r: Option<string>)
    ensures r.Some? ==> r.value in ps && r.value != "" && r.value != "." && r.value != ".."
  {
    if ps == [] then None
    else
      var p := ps[|ps| - 1];
      if p == "" || p == "." then LastNormal(ps[..|ps| - 1])
      else if p == ".." then None
      else Some(p)
  }

  function FileName(path: string): (r: Option<string>)
    ensures r.Some? ==> r.value != "" && '/' !in r.value
  {
    LastNormal(Pieces(path))
  }

  /** Position of the last `.` in `s`. */
  function LastDot(s: string): (r: Option<nat>)
    ensures r.Some? ==> r.value < |s| && s[r.value] == '.' && '.' !in s[r.value + 1..]
    ensures r.None? ==> '.' !in s
  {
    if s == [] then None
    else if s[|s| - 1] == '.' then Some(|s| - 1)
    else
      var r := LastDot(s[..|s| - 1]);
      assert r.Some? ==> s[r.value + 1..] == s[..|s| - 1][r.value + 1..] + [s[|s| - 1]];
      assert r.None? ==> s == s[..|s| - 1] + [s[|s| - 1]];
      r
  }

  /** `Path::extension`: what follows the last `.` of the file name; none
      when there is no file name, no `.`, or the only `.` opens the name. */
  function Extension(path: string): (r: Option<string>)
    ensures r.Some? ==> '.' !in r.value && '/' !in r.value
  {
    match FileName(path)
    case None => None
    case Some(name) =>
      match LastDot(name)
      case None => None
      case Some(i) => if i == 0 then None else Some(name[i + 1..])
  }

  // ---------------------------------------------------------------------
  // Selection by extension and by name
  // ---------------------------------------------------------------------

  /** The extensions `detect_parser` knows, already lower-cased. */
  function FormatOfExtension(e: string): Option<Format> {
    match e
    case "json" => Some(Json)
    case "jsonl" => Some(JsonLines)
    case "xml" => Some(Xml)
    case "html" => Some(Html)
    case "htm" => Some(Html)
    case "ldif" => Some(Ldif)
    case "toml" => Some(Toml)
    case "yaml" => Some(Yaml)
    case "yml" => Some(Yaml)
    case _ => None
  }

  /** The format names `get_parser_from_format` knows, already lower-cased:
      the extensions plus the alias `jsonlines`. */
  function FormatOfName(n: string): (r: Option<Format>)
    ensures FormatOfExtension(n).Some? ==> r == FormatOfExtension(n)
    ensures FormatOfExtension(n).None? ==> (r.Some? <==> n == "jsonlines")
  {
    if n == "jsonlines" then Some(JsonLines) else FormatOfExtension(n)
  }

  /** `detect_parser`: the file extension, lower-cased, picks the format;
      an unknown or missing extension is an unsupported format. */
  function DetectParser(path: string): (r: Result<Format, XtvError>)
    ensures r.Err? ==> r.error.UnsupportedFormat?
    ensures r.Ok? <==> Extension(path).Some? && FormatOfExtension(AsciiLower(Extension(path).value)).Some?
    ensures r.Ok? ==> r.value == FormatOfExtension(AsciiLower(Extension(path).value)).value
  {
    match Extension(path)
    case None => Err(UnsupportedFormat("File has no extension"))
    case Some(e) =>
      var ext := AsciiLower(e);
      match FormatOfExtension(ext)
      case Some(f) => Ok(f)
      case None => Err(UnsupportedFormat("File extension '." + ext + "' is not supported"))
  }

  /** `get_parser_from_format`: the name, lower-cased, picks the format;
      the error message quotes the name as given. */
  function GetParserFromFormat(format: string): (r: Result<Format, XtvError>)
    ensures r.Err? ==> r.error.UnsupportedFormat?
    ensures r.Ok? <==> FormatOfName(AsciiLower(format)).Some?
    ensures r.Ok? ==> r.value == FormatOfName(AsciiLower(format)).value
  {
    match FormatOfName(AsciiLower(format))
    case Some(f) => Ok(f)
    case None => Err(UnsupportedFormat("Format '" + format + "' is not supported"))
  }

  /** The lower-case name each format is chosen by. */
  function CanonicalName(f: Format): string {
    match f
    case Json => "json"
    case JsonLines => "jsonl"
    case Xml => "xml"
    case Html => "html"
    case Ldif => "ldif"
    case Toml => "toml"
    case Yaml => "yaml"
  }

  lemma AsciiLowerIdentity(s: string)
    requires forall i :: 0 <= i < |s| ==> !('A' <= s[i] <= 'Z')
    ensures AsciiLower(s) == s
  {
  }

  /** A path `stem.ext` with no directory part has extension `ext`. */
  lemma SimplePath(stem: string, ext: string)
    requires stem != [] && '/' !in stem && '.' !in stem
    requires '/' !in ext && '.' !in ext
    ensures Extension(stem + "." + ext) == Some(ext)
  {
    var p := stem + "." + ext;
    assert p[|stem|] == '.';
    assert Pieces(p) == [p] by {
      assert forall i :: 0 <= i < |p| ==> p[i] != '/' by {
        forall i | 0 <= i < |p| ensures p[i] != '/' {
          if i < |stem| { assert p[i] == stem[i]; }
          else if i > |stem| { assert p[i] == ext[i - |stem| - 1]; }
        }
      }
    }
    assert p != "" && p != "." && p != ".." by {
      assert p[0] == stem[0] && stem[0] != '.';
    }
    var d := LastDot(p);
    assert d.Some? by {
      assert p[|stem|] in p;
    }
    assert forall i :: 0 <= i < |stem| ==> p[i] == stem[i] && p[i] != '.' by {
      forall i | 0 <= i < |stem| ensures p[i] == stem[i] && p[i] != '.' {
        assert stem[i] in stem;
      }
    }
    assert forall i :: |stem| < i < |p| ==> p[i] == ext[i - |stem| - 1] && p[i] != '.' by {
      forall i | |stem| < i < |p| ensures p[i] == ext[i - |stem| - 1] && p[i] != '.' {
        assert ext[i - |stem| - 1] in ext;
      }
    }
    assert d == Some(|stem|);
    assert p[|stem| + 1..] == ext;
  }

  /** The canonical name is an extension `detect_parser` maps back to its
      format. */
  lemma CanonicalRoundTrip(f: Format)
    ensures FormatOfExtension(CanonicalName(f)) == Some(f)
  {
  }

  lemma CanonicalLower(f: Format)
    ensures AsciiLower(CanonicalName(f)) == CanonicalName(f)
  {
    AsciiLowerIdentity(CanonicalName(f));
  }

  /** Every format is chosen by its name. */
  lemma CanonicalNameSelects(f: Format)
    ensures GetParserFromFormat(CanonicalName(f)) == Ok(f)
  {
    CanonicalRoundTrip(f);
    CanonicalLower(f);
  }

  /** Every format is chosen by a path whose extension is its name, such
      as `data.<name>`. */
  lemma CanonicalExtensionSelects(path: string, f: Format)
    requires Extension(path) == Some(CanonicalName(f))
    ensures DetectParser(path) == Ok(f)
  {
    CanonicalRoundTrip(f);
    CanonicalLower(f);
  }

  lemma JsonLinesLower()
    ensures AsciiLower("jsonlines") == "jsonlines"
  {
    AsciiLowerIdentity("jsonlines");
  }

  /** `jsonlines` is a format name ... */
  lemma JsonLinesIsName()
    ensures GetParserFromFormat("jsonlines") == Ok(JsonLines)
  {
    JsonLinesLower();
  }

  /** ... but not an extension `detect_parser` knows. */
  lemma JsonLinesIsNoExtension(path: string)
    requires Extension(path) == Some("jsonlines")
    ensures DetectParser(path).Err?
  {
    JsonLinesLower();
    JsonLinesUnknown();
  }

  lemma JsonLinesUnknown()
    ensures FormatOfExtension("jsonlines") == None
  {
  }

  lemma DataJsonLines()
    ensures Extension("data.jsonlines") == Some("jsonlines")
  {
    SimplePath("data", "jsonlines");
    assert "data.jsonlines" == "data" + "." + "jsonlines";
  }

  /** Upper or lower case in the format name makes no difference. */
  lemma FormatIgnoresCase(a: string, b: string)
    requires AsciiLower(a) == AsciiLower(b)
    ensures GetParserFromFormat(a).Ok? <==> GetParserFromFormat(b).Ok?
    ensures GetParserFromFormat(a).Ok? ==> GetParserFromFormat(a) == GetParserFromFormat(b)
  {
  }

  /** Every extension `detect_parser` accepts is a format name that
      `get_parser_from_format` accepts, for the same format. */
  lemma ExtensionIsFormatName(path: string)
    requires DetectParser(path).Ok?
    ensures GetParserFromFormat(Extension(path).value) == DetectParser(path)
  {
  }

  /** Upper or lower case in the extension makes no difference. */
  lemma DetectIgnoresCase(p: string, q: string)
    requires Extension(p).Some? && Extension(q).Some?
    requires AsciiLower(Extension(p).value) == AsciiLower(Extension(q).value)
    ensures DetectParser(p) == DetectParser(q)
  {
  }

  /** A file name with no `.` after its first character has no extension,
      so it is rejected. */
  lemma NoExtensionRejected(path: string)
    requires FileName(path).Some? && '.' !in FileName(path).value[1..]
    ensures DetectParser(path) == Err(UnsupportedFormat("File has no extension"))
  {
    var name := FileName(path).value;
    var d := LastDot(name);
    if d.Some? && d.value > 0 {
      assert false;
    }
  }

  // ---------------------------------------------------------------------
  // Selection by content
  // ---------------------------------------------------------------------

  /** `detect_parser_from_content`: after leading whitespace, markup is HTML
      when it mentions a doctype or an `html` tag and XML otherwise; then
      `{`/`[` is JSON, `version:`/`dn:` is LDIF, `---`/`%YAML` is YAML, and
      anything holding `:` but no `::` is YAML as a last resort. */
  function DetectFromContent(content: string): (r: Result<Format, XtvError>)
    ensures r.Ok? ==> r.value != JsonLines && r.value != Toml
    ensures r.Err? ==> r.error.UnsupportedFormat?
  {
    Sniff(TrimStart(content))
  }

  /** The tests `detect_parser_from_content` makes on the trimmed text. */
  function Sniff(t: string): (r: Result<Format, XtvError>)
    ensures r.Ok? ==> r.value != JsonLines && r.value != Toml
    ensures r.Err? ==> r.error.UnsupportedFormat?
  {
    if StartsWith(t, "<?xml") || StartsWith(t, "<") then
      if Contains(t, "<!DOCTYPE html") || Contains(t, "<html") then Ok(Html) else Ok(Xml)
    else if StartsWith(t, "{") || StartsWith(t, "[") then Ok(Json)
    else if StartsWith(t, "version:") || StartsWith(t, "dn:") then Ok(Ldif)
    else if StartsWith(t, "---") || StartsWith(t, "%YAML") then Ok(Yaml)
    else if Contains(t, ":") && !Contains(t, "::") then Ok(Yaml)
    else Err(UnsupportedFormat("Could not detect format from content. Use --format to specify the format."))
  }

  /** The `<?xml` test is subsumed by the `<` test beside it. */
  lemma XmlDeclIsMarkup(t: string)
    requires StartsWith(t, "<?xml")
    ensures StartsWith(t, "<")
  {
    assert t[..1] == t[..5][..1];
  }

  /** Markup is HTML exactly when it mentions a doctype or an `html` tag,
      and XML otherwise. */
  lemma MarkupSniffed(content: string)
    requires StartsWith(TrimStart(content), "<")
    ensures var t := TrimStart(content);
      && (DetectFromContent(content) == Ok(Html) <==> Contains(t, "<!DOCTYPE html") || Contains(t, "<html"))
      && (DetectFromContent(content) == Ok(Xml) <==> !Contains(t, "<!DOCTYPE html") && !Contains(t, "<html"))
  {
  }

  /** JSON is chosen exactly for a text that opens with `{` or `[`. */
  lemma JsonSniffed(content: string)
    ensures var t := TrimStart(content);
      DetectFromContent(content) == Ok(Json) <==> StartsWith(t, "{") || StartsWith(t, "[")
  {
    var t := TrimStart(content);
    if StartsWith(t, "{") || StartsWith(t, "[") {
      JsonOpening(content);
    }
  }

  lemma JsonOpening(content: string)
    requires StartsWith(TrimStart(content), "{") || StartsWith(TrimStart(content), "[")
    ensures DetectFromContent(content) == Ok(Json)
  {
    var t := TrimStart(content);
    assert t != [] && (t[0] == '{' || t[0] == '[');
    FirstCharDiffers(t, "<");
    FirstCharDiffers(t, "<?xml");
  }

  /** Detection fails exactly when none of the openings matches and the
      text has no `:` or has a `::`. */
  lemma SniffFails(content: string)
    ensures var t := TrimStart(content);
      DetectFromContent(content).Err? <==>
        (&& !StartsWith(t, "<") && !StartsWith(t, "{") && !StartsWith(t, "[")
         && !StartsWith(t, "version:") && !StartsWith(t, "dn:") && !StartsWith(t, "---")
         && !StartsWith(t, "%YAML") && (!Contains(t, ":") || Contains(t, "::")))
  {
    var t := TrimStart(content);
    if StartsWith(t, "<?xml") {
      XmlDeclIsMarkup(t);
    }
  }

  lemma {:induction false} TrimStartSkipsWhite(w: string, c: string)
    requires AllWhite(w)
    ensures TrimStart(w + c) == TrimStart(c)
    decreases |w|
  {
    if w != [] {
      assert IsWhite((w + c)[0]) && (w + c)[1..] == w[1..] + c;
      assert TrimStart(w + c) == TrimStart(w[1..] + c);
      assert AllWhite(w[1..]) by {
        forall i | 0 <= i < |w| - 1 ensures IsWhite(w[1..][i]) {
          assert w[1..][i] == w[i + 1];
        }
      }
      TrimStartSkipsWhite(w[1..], c);
    } else {
      assert w + c == c;
    }
  }

  /** Leading whitespace never changes the detected format. */
  lemma ContentIgnoresLeadingWhite(w: string, c: string)
    requires AllWhite(w)
    ensures DetectFromContent(w + c) == DetectFromContent(c)
  {
    TrimStartSkipsWhite(w, c);
  }

  /** A text whose first character differs from a prefix's does not start
      with it. */
  lemma FirstCharDiffers(t: string, p: string)
    requires t != [] && p != [] && t[0] != p[0]
    ensures !StartsWith(t, p)
  {
    if |p| <= |t| {
      assert t[..|p|][0] == t[0];
    }
  }

  /** An LDIF file opening with a `dn:` line is recognised as LDIF. */
  lemma DnOpensLdif(rest: string)
    ensures DetectFromContent("dn:" + rest) == Ok(Ldif)
  {
    var t := "dn:" + rest;
    assert t[0] == 'd' && TrimStart(t) == t;
    FirstCharDiffers(t, "<");
    FirstCharDiffers(t, "<?xml");
    FirstCharDiffers(t, "{");
    FirstCharDiffers(t, "[");
    FirstCharDiffers(t, "version:");
    assert t[..3] == "dn:";
  }

  /** A text that opens with an attribute line in base64 form, such as an
      LDIF fragment without its `dn:` line, is not recognised at all: the
      `::` separator rules out the YAML fallback. */
  lemma Base64LineUnknown(rest: string)
    ensures DetectFromContent("cn:: " + rest).Err?
  {
    var u := "cn:: " + rest;
    assert u[0] == 'c' && TrimStart(u) == u;
    assert OccursAt(u, "::", 2) by {
      assert u[2..4] == "::";
    }
    FirstCharDiffers(u, "<");
    FirstCharDiffers(u, "<?xml");
    FirstCharDiffers(u, "{");
    FirstCharDiffers(u, "[");
    FirstCharDiffers(u, "version:");
    FirstCharDiffers(u, "dn:");
    FirstCharDiffers(u, "---");
    FirstCharDiffers(u, "%YAML");
  }
}
