/** One attribute line of an LDIF record (RFC 2849): `key: value`,
    `key:: base64` and `key:< url`, the way src/parser/ldif.rs reads them,
    together with the text shown for a base64 value that is not UTF-8. */
module LdifAttr {
  import opened Wrappers
  import opened Text
  import Base64
  import Utf8

  type Byte = Utf8.Byte

  // ---------------------------------------------------------------------
  // Hex preview of binary values
  // ---------------------------------------------------------------------

  /** A lower-case hexadecimal digit. */
  function HexDigit(d: nat): char
    requires d < 16
  {
    if d < 10 then ('0' as int + d) as char else ('a' as int + d - 10) as char
  }

  /** `format!("{:02x}", b)`: two lower-case hex digits. */
  function HexPair(b: Byte): (s: string)
    ensures |s| == 2
  {
    [HexDigit(b / 16), HexDigit(b % 16)]
  }

  /** Distinct bytes have distinct pairs. */
  lemma HexPairInjective(b: Byte, c: Byte)
    requires HexPair(b) == HexPair(c)
    ensures b == c
  {
    assert HexDigit(b / 16) == HexDigit(c / 16);
    assert HexDigit(b % 16) == HexDigit(c % 16);
    assert b / 16 == c / 16 && b % 16 == c % 16;
  }

  function HexPairs(bs: seq<Byte>): (ps: seq<string>)
    ensures |ps| == |bs|
    ensures forall k :: 0 <= k < |bs| ==> ps[k] == HexPair(bs[k])
  {
    seq(|bs|, k requires 0 <= k < |bs| => HexPair(bs[k]))
  }

  /** `hex_preview`: the first 32 bytes as hex pairs separated by spaces. */
  function HexPreview(bs: seq<Byte>): string {
    Join(HexPairs(bs[..if |bs| < 32 then |bs| else 32]), " ")
  }

  /** Two-character parts joined by single spaces: part `k` sits at `3k`
      and a space follows every part but the last. */
  lemma {:induction false} JoinPairs(ps: seq<string>)
    requires forall k :: 0 <= k < |ps| ==> |ps[k]| == 2
    ensures |Join(ps, " ")| == if ps == [] then 0 else 3 * |ps| - 1
    ensures forall k :: 0 <= k < |ps| ==> Join(ps, " ")[3 * k..3 * k + 2] == ps[k]
    ensures forall k :: 0 <= k < |ps| - 1 ==> Join(ps, " ")[3 * k + 2] == ' '
  {
    if |ps| > 1 {
      var init := ps[..|ps| - 1];
      JoinPairs(init);
      var j, i := Join(ps, " "), Join(init, " ");
      assert j == i + " " + ps[|ps| - 1];
      forall k | 0 <= k < |ps| ensures j[3 * k..3 * k + 2] == ps[k] {
        if k < |ps| - 1 {
          assert j[3 * k..3 * k + 2] == i[3 * k..3 * k + 2];
        }
      }
    }
  }

  /** The preview shows the first 32 bytes, pair `k` at position `3k`. */
  lemma HexPreviewShows(bs: seq<Byte>)
    ensures var n := if |bs| < 32 then |bs| else 32;
      && |HexPreview(bs)| == (if n == 0 then 0 else 3 * n - 1)
      && (forall k :: 0 <= k < n ==> HexPreview(bs)[3 * k..3 * k + 2] == HexPair(bs[k]))
      && (forall k :: 0 <= k < n - 1 ==> HexPreview(bs)[3 * k + 2] == ' ')
  {
    var n := if |bs| < 32 then |bs| else 32;
    JoinPairs(HexPairs(bs[..n]));
  }

  /** The preview determines the first 32 bytes and nothing after them. */
  lemma HexPreviewInjective(bs: seq<Byte>, cs: seq<Byte>)
    requires HexPreview(bs) == HexPreview(cs)
    ensures var n := if |bs| < 32 then |bs| else 32;
      n == (if |cs| < 32 then |cs| else 32) && bs[..n] == cs[..n]
  {
    var n := if |bs| < 32 then |bs| else 32;
    var m := if |cs| < 32 then |cs| else 32;
    HexPreviewShows(bs);
    HexPreviewShows(cs);
    assert n == m;
    forall k | 0 <= k < n ensures bs[k] == cs[k] {
      HexPairInjective(bs[k], cs[k]);
    }
    assert bs[..n] == cs[..n];
  }

  // ---------------------------------------------------------------------
  // Base64 values
  // ---------------------------------------------------------------------

  /** What a value that is not UTF-8 is shown as. */
  function BinaryText(bs: seq<Byte>): string {
    if |bs| <= 64 then "<binary: " + HexPreview(bs) + ">"
    else "<binary data, " + NatToString(|bs|) + " bytes>"
  }

  /** The text of decoded bytes: the UTF-8 text, else the binary description. */
  function BytesText(bs: seq<Byte>): string {
    match Utf8.Decode(bs)
    case Some(s) => s
    case None => BinaryText(bs)
  }

  /** `decode_base64`: the text of a base64 value, or the decode error. */
  function DecodeValue(encoded: string): (r: Result<string, string>)
    ensures r.Err? <==> Base64.Decode(encoded).None?
    ensures r.Ok? ==> r.value == BytesText(Base64.Decode(encoded).value)
  {
    match Base64.Decode(encoded)
    case None => Err("Base64 decode error")
    case Some(bs) => Ok(BytesText(bs))
  }

  /** An encoding has neither whitespace nor a colon, so it survives `trim`
      and cannot hide a separator. */
  lemma EncodingIsPlain(bs: seq<Byte>)
    ensures Trim(" " + Base64.Encode(bs)) == Base64.Encode(bs)
    ensures ':' !in Base64.Encode(bs)
    ensures NoWhite(Base64.Encode(bs))
  {
    var e := Base64.Encode(bs);
    Base64.EncodeChars(bs);
    assert forall i :: 0 <= i < |e| ==> !IsWhite(e[i]) && e[i] != ':';
    TrimLeadingSpace(e);
    TrimIdentity(e);
  }

  // ---------------------------------------------------------------------
  // Attribute lines
  // ---------------------------------------------------------------------

  /** `parse_attribute_line`: the separators are tried in the order `::`,
      `:<`, `:`, each at its first occurrence; key and value are trimmed.
      The reader inside the in-memory parser reports its current line
      number in errors, the free function used by the index builder 0. */
  function ParseAttributeLine(line: string, lineNum: nat): (r: Result<(string, string), XtvError>)
    ensures r.Err? ==> r.error.LdifParse? && r.error.line == lineNum
  {
    match Find(line, "::")
    case Some(pos) =>
      (match DecodeValue(Trim(line[pos + 2..]))
       case Ok(v) => Ok((Trim(line[..pos]), v))
       case Err(m) => Err(LdifParse(lineNum, m)))
    case None =>
      match Find(line, ":<")
      case Some(pos) => Ok((Trim(line[..pos]), "<URL reference: " + Trim(line[pos + 2..]) + ">"))
      case None =>
        match IndexOf(line, ':')
        case Some(pos) => Ok((Trim(line[..pos]), Trim(line[pos + 1..])))
        case None => Err(LdifParse(lineNum, "Invalid attribute format"))
  }

  /** A line fails exactly when it has no colon at all, or when its first
      `::` is followed by something that is not canonical base64. */
  lemma AttributeLineErrors(line: string, lineNum: nat)
    ensures ParseAttributeLine(line, lineNum).Err? <==>
      || ':' !in line
      || (Find(line, "::").Some? && Base64.Decode(Trim(line[Find(line, "::").value + 2..])).None?)
  {
    match Find(line, "::")
    case Some(pos) =>
      assert line[pos] == line[pos..pos + 2][0] == ':';
    case None =>
      match Find(line, ":<")
      case Some(pos) =>
        assert line[pos] == line[pos..pos + 2][0] == ':';
      case None =>
  }

  /** `p` occurring inside the `b` part of `a + b` occurs in `b`. */
  lemma OccursInSuffix(a: string, b: string, p: string, j: nat)
    requires |a| <= j && j + |p| <= |a + b|
    ensures OccursAt(a + b, p, j) <==> OccursAt(b, p, j - |a|)
  {
    assert (a + b)[j..j + |p|] == b[j - |a|..j - |a| + |p|];
  }

  /** The first `::` of `k + "::" + y` with a colon-free key is the separator. */
  lemma SeparatorFirst(k: string, y: string)
    requires ':' !in k
    ensures Find(k + "::" + y, "::") == Some(|k|)
  {
    var line := k + "::" + y;
    assert OccursAt(line, "::", |k|) by {
      assert line[|k|..|k| + 2] == "::";
    }
    forall j: nat | j < |k| ensures !OccursAt(line, "::", j) {
      assert line[j] == k[j];
    }
  }

  /** The separator `sep` (two characters, a colon then `c`) is not found in
      `k + ":" + [d] + v` when `d` differs from `c`, the key has no colon
      and `v` does not contain it. */
  lemma NotFound(k: string, d: char, v: string, sep: string)
    requires |sep| == 2 && sep[0] == ':' && d != sep[1] && d != ':'
    requires ':' !in k && !Contains(v, sep)
    ensures Find(k + ":" + [d] + v, sep).None?
  {
    var line := k + ":" + [d] + v;
    forall j: nat ensures !OccursAt(line, sep, j) {
      if j + 2 <= |line| {
        assert line[j..j + 2] == [line[j], line[j + 1]];
        if j >= |k| + 2 {
          OccursInSuffix(k + ":" + [d], v, sep, j);
        }
      }
    }
  }

  /** The colon after a colon-free key is the first one. */
  lemma ColonAfterKey(k: string, rest: string)
    requires ':' !in k
    ensures IndexOf(k + ":" + rest, ':') == Some(|k|)
  {
    var line := k + ":" + rest;
    assert line[|k|] == ':';
    assert line[..|k|] == k;
  }

  /** The writer's plain form `key: value` reads back as the trimmed key and
      value, provided the value holds neither `::` nor `:<`. */
  lemma PlainRoundTrip(k: string, v: string, n: nat)
    requires ':' !in k && !Contains(v, "::") && !Contains(v, ":<")
    ensures ParseAttributeLine(k + ": " + v, n) == Ok((Trim(k), Trim(v)))
  {
    var line := k + ": " + v;
    assert Find(line, "::").None? && Find(line, ":<").None? by {
      assert line == k + ":" + [' '] + v;
      NotFound(k, ' ', v, "::");
      NotFound(k, ' ', v, ":<");
    }
    assert IndexOf(line, ':') == Some(|k|) by {
      ColonAfterKey(k, " " + v);
      assert line == k + ":" + (" " + v);
    }
    PlainCase(line, n, |k|);
    assert line[..|k|] == k;
    assert line[|k| + 1..] == " " + v;
    TrimLeadingSpace(v);
  }

  lemma PlainCase(line: string, n: nat, pos: nat)
    requires Find(line, "::").None? && Find(line, ":<").None? && IndexOf(line, ':') == Some(pos)
    ensures ParseAttributeLine(line, n) == Ok((Trim(line[..pos]), Trim(line[pos + 1..])))
  {
  }

  /** The writer's base64 form `key:: encoding` reads back as the trimmed key
      and the text of the bytes: the UTF-8 text, or the binary description. */
  lemma Base64RoundTrip(k: string, bs: seq<Byte>, n: nat)
    requires ':' !in k
    ensures ParseAttributeLine(k + ":: " + Base64.Encode(bs), n) == Ok((Trim(k), BytesText(bs)))
  {
    var e := Base64.Encode(bs);
    var line := k + ":: " + e;
    assert line == k + "::" + (" " + e);
    SeparatorFirst(k, " " + e);
    assert line[..|k|] == k;
    assert line[|k| + 2..] == " " + e;
    EncodingIsPlain(bs);
    Base64.DecodeEncode(bs);
  }

  /** In particular every text survives its UTF-8 base64 form. */
  lemma TextRoundTrip(k: string, s: string, n: nat)
    requires ':' !in k
    ensures ParseAttributeLine(k + ":: " + Base64.Encode(Utf8.Encode(s)), n) == Ok((Trim(k), s))
  {
    Base64RoundTrip(k, Utf8.Encode(s), n);
    Utf8.DecodeEncode(s);
  }

  /** A base64 value that does not decode is an error at the given line. */
  lemma BadBase64(k: string, e: string, n: nat)
    requires ':' !in k && Base64.Decode(Trim(e)).None?
    ensures ParseAttributeLine(k + "::" + e, n) == Err(LdifParse(n, "Base64 decode error"))
  {
    SeparatorFirst(k, e);
    assert (k + "::" + e)[|k| + 2..] == e;
  }

  /** The URL form `key:< url` gives a reference text, not the URL's content. */
  lemma UrlReference(k: string, u: string, n: nat)
    requires ':' !in k && !Contains(u, "::")
    ensures ParseAttributeLine(k + ":< " + u, n) == Ok((Trim(k), "<URL reference: " + Trim(u) + ">"))
  {
    var line := k + ":< " + u;
    assert line == k + ":" + ['<'] + (" " + u);
    assert !Contains(" " + u, "::") by {
      forall j: nat ensures !OccursAt(" " + u, "::", j) {
        if OccursAt(" " + u, "::", j) {
          assert (" " + u)[j..j + 2][0] == (" " + u)[j];
          if j >= 1 {
            OccursInSuffix(" ", u, "::", j);
          }
        }
      }
    }
    NotFound(k, '<', " " + u, "::");
    assert OccursAt(line, ":<", |k|) by {
      assert line[|k|..|k| + 2] == ":<";
    }
    forall j: nat | j < |k| ensures !OccursAt(line, ":<", j) {
      assert line[j] == k[j];
    }
    assert Find(line, ":<") == Some(|k|);
    assert line[..|k|] == k;
    assert line[|k| + 2..] == " " + u;
    TrimLeadingSpace(u);
  }

  /** A line without any colon is rejected as an invalid attribute. */
  lemma NoColon(line: string, n: nat)
    requires ':' !in line
    ensures ParseAttributeLine(line, n) == Err(LdifParse(n, "Invalid attribute format"))
  {
    forall j: nat ensures !OccursAt(line, "::", j) && !OccursAt(line, ":<", j) {
      if j + 2 <= |line| {
        assert line[j..j + 2][0] == line[j];
      }
    }
  }

  /** Order matters: a plain value that itself contains `::` makes the line
      read as base64, keyed by everything before that `::`. */
  lemma DoubleColonInValue(k: string, x: string, y: string, n: nat)
    requires ':' !in k && ':' !in x
    ensures var r := ParseAttributeLine(k + ": " + x + "::" + y, n);
      && (r.Err? <==> Base64.Decode(Trim(y)).None?)
      && (r.Ok? ==> r.value.0 == Trim(k + ": " + x))
  {
    var kx := k + ": " + x;
    assert ':' !in kx[|k| + 1..] by {
      assert kx[|k| + 1..] == " " + x;
    }
    assert Find(kx + "::" + y, "::") == Some(|kx|) by {
      var line := kx + "::" + y;
      assert OccursAt(line, "::", |kx|) by {
        assert line[|kx|..|kx| + 2] == "::";
      }
      forall j: nat | j < |kx| ensures !OccursAt(line, "::", j) {
        assert line[j..j + 2] == [line[j], line[j + 1]];
        assert line[j] == kx[j];
      }
    }
    assert (kx + "::" + y)[..|kx|] == kx;
    assert (kx + "::" + y)[|kx| + 2..] == y;
  }
}
